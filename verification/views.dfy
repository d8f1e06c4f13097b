/** The read side: derived values computed from the store without changing
    it. Time remaining and urgency bands for the auction listing, the copy of
    an auction the listing and details endpoints return, the voice details
    of one auction, the voice summary of all running auctions, and a user's
    standing split into winning and outbid bids. */
module Views {
  import opened Outcomes
  import opened AuctionData
  import Clock
  import Bidding

  /** What the read side treats as running: the stored status is "active"
      and some time is left. */
  predicate Running(p: Product, now: Time) {
    p.status == Active && now < p.auctionEndTime
  }

  datatype Urgency = High | Medium | Low | NoUrgency

  /** The listing's urgency band: under 5 minutes left is high, under 15
      medium, otherwise low; "none" once the auction is not running. */
  function UrgencyOf(p: Product, now: Time): (u: Urgency)
    ensures u == NoUrgency <==> !Running(p, now)
    ensures u == High ==> p.auctionEndTime - now < 5 * MICROS_PER_MINUTE
    ensures u == Medium ==> 5 * MICROS_PER_MINUTE <= p.auctionEndTime - now < 15 * MICROS_PER_MINUTE
    ensures u == Low ==> p.auctionEndTime - now >= 15 * MICROS_PER_MINUTE
  {
    if Running(p, now) then
      var m := Clock.MinutesRemaining(p.auctionEndTime, now);
      if m < 5 then High else if m < 15 then Medium else Low
    else NoUrgency
  }

  /** Bands ordered from least to most pressing; an auction that is over
      ranks last. */
  function Rank(u: Urgency): nat {
    match u
    case Low => 0
    case Medium => 1
    case High => 2
    case NoUrgency => 3
  }

  /** As time passes an auction's urgency never drops. */
  lemma UrgencyNeverDrops(p: Product, earlier: Time, later: Time)
    requires earlier <= later
    ensures Rank(UrgencyOf(p, earlier)) <= Rank(UrgencyOf(p, later))
  {
    Clock.MinutesRemainingNonIncreasing(p.auctionEndTime, earlier, later);
  }

  /** The copy of an auction that the listing and details endpoints return,
      with the derived fields added. */
  datatype AuctionView = AuctionView(product: Product, shownStatus: Status, minutesRemaining: nat, secondsRemaining: nat, urgency: Urgency)

  /** The copy says "ended" as soon as the auction is not running, though
      the stored auction keeps its status until the sweep reaches it. */
  function ViewOf(p: Product, now: Time): (v: AuctionView)
    ensures v.product == p
    ensures v.shownStatus == Active <==> Running(p, now)
    ensures p.status == Ended ==> v.shownStatus == Ended
    ensures !Running(p, now) ==> v.minutesRemaining == 0 && v.secondsRemaining == 0 && v.urgency == NoUrgency
    ensures Running(p, now) ==>
      && v.minutesRemaining == Clock.MinutesRemaining(p.auctionEndTime, now)
      && v.secondsRemaining == Clock.SecondsRemaining(p.auctionEndTime, now)
      && v.urgency == UrgencyOf(p, now)
  {
    if Running(p, now) then
      AuctionView(p, Active, Clock.MinutesRemaining(p.auctionEndTime, now),
                  Clock.SecondsRemaining(p.auctionEndTime, now), UrgencyOf(p, now))
    else AuctionView(p, Ended, 0, 0, NoUrgency)
  }

  datatype DetailsError = DetailsNotFound | DetailsEnded

  datatype VoiceDetails = VoiceDetails(
    productId: string,
    name: string,
    description: string,
    currentHighestBid: Money,
    totalBids: int,
    minutesRemaining: nat,
    secondsRemaining: nat,
    minimumNextBid: Money)

  /** Voice details of one auction: not found, already ended (no time left
      or not "active"), or the details with the minimum next bid. */
  function VoiceDetailsOf(products: map<string, Product>, productId: string, now: Time): (r: Result<VoiceDetails, DetailsError>)
    ensures r == Failure(DetailsNotFound) <==> productId !in products
    ensures r.Success? <==> productId in products && Running(products[productId], now)
    ensures r.Success? ==>
      var p := products[productId];
      && r.value.productId == productId && r.value.name == p.name && r.value.description == p.description
      && r.value.currentHighestBid == p.currentHighestBid && r.value.totalBids == p.totalBids
      && r.value.minutesRemaining == Clock.MinutesRemaining(p.auctionEndTime, now)
      && r.value.secondsRemaining == Clock.SecondsRemaining(p.auctionEndTime, now)
      && r.value.minimumNextBid == p.currentHighestBid + MIN_INCREMENT
  {
    if productId !in products then Failure(DetailsNotFound)
    else
      var p := products[productId];
      if !Running(p, now) then Failure(DetailsEnded)
      else Success(VoiceDetails(productId, p.name, p.description, p.currentHighestBid, p.totalBids,
                                Clock.MinutesRemaining(p.auctionEndTime, now),
                                Clock.SecondsRemaining(p.auctionEndTime, now),
                                Bidding.MinimumNextBid(p.currentHighestBid)))
  }

  /** The details quote the exact threshold of the bid rules: a bid of the
      quoted minimum, placed at the same instant, passes them, and every
      smaller amount is refused. */
  lemma QuotedMinimumIsExact(products: map<string, Product>, productId: string, now: Time, amount: Money)
    requires VoiceDetailsOf(products, productId, now).Success?
    ensures var quote := VoiceDetailsOf(products, productId, now).value.minimumNextBid;
      && Bidding.AuctionRules(products[productId], Number(quote), now).Success?
      && (amount < quote ==> Bidding.AuctionRules(products[productId], Number(amount), now).Failure?)
  {
    Bidding.MinimumNextBidIsExact(products[productId], now, amount);
  }

  /** One line of the voice summary. */
  datatype Listing = Listing(productId: string, name: string, currentBid: Money, minutesRemaining: nat, totalBids: int)

  function ListingOf(productId: string, p: Product, now: Time): Listing {
    Listing(productId, p.name, p.currentHighestBid, Clock.MinutesRemaining(p.auctionEndTime, now), p.totalBids)
  }

  /** The running auctions, visited in `keys` order: each listing is a
      running auction's, every running auction is listed, and none twice
      when no key repeats. */
  function ActiveListings(products: map<string, Product>, keys: seq<string>, now: Time): (r: seq<Listing>)
    ensures forall i :: 0 <= i < |r| ==>
      && r[i].productId in keys && r[i].productId in products
      && Running(products[r[i].productId], now)
      && r[i] == ListingOf(r[i].productId, products[r[i].productId], now)
    ensures forall k :: k in keys && k in products && Running(products[k], now) ==> ListingOf(k, products[k], now) in r
    ensures Distinct(keys) ==> forall i, j :: 0 <= i < j < |r| ==> r[i].productId != r[j].productId
  {
    if keys == [] then []
    else
      var init := keys[..|keys| - 1];
      var k := keys[|keys| - 1];
      assert forall x :: x in keys <==> x in init || x == k;
      assert Distinct(keys) ==> Distinct(init) && k !in init;
      ActiveListings(products, init, now)
      + if k in products && Running(products[k], now) then [ListingOf(k, products[k], now)] else []
  }

  ghost predicate SortedByMinutes(s: seq<Listing>) {
    forall i, j :: 0 <= i < j < |s| ==> s[i].minutesRemaining <= s[j].minutesRemaining
  }

  /** A listing due no later than the head of a sorted list can go in front. */
  lemma PrependSorted(h: Listing, t: seq<Listing>)
    requires SortedByMinutes(t)
    requires t != [] ==> h.minutesRemaining <= t[0].minutesRemaining
    ensures SortedByMinutes([h] + t)
  {
    var r := [h] + t;
    forall i, j | 0 <= i < j < |r| ensures r[i].minutesRemaining <= r[j].minutesRemaining {
      if i == 0 {
        assert r[j] == t[j - 1];
        assert t[0].minutesRemaining <= t[j - 1].minutesRemaining || j == 1;
      } else {
        assert r[i] == t[i - 1] && r[j] == t[j - 1];
      }
    }
  }

  /** Inserts `x` before the first listing with more minutes left than it. */
  function InsertByMinutes(x: Listing, s: seq<Listing>): (r: seq<Listing>)
    ensures |r| == |s| + 1
    ensures multiset(r) == multiset(s) + multiset{x}
  {
    if s == [] then [x]
    else if x.minutesRemaining < s[0].minutesRemaining then [x] + s
    else
      assert s == [s[0]] + s[1..];
      [s[0]] + InsertByMinutes(x, s[1..])
  }

  /** Inserting into a list sorted by minutes remaining keeps it sorted. */
  lemma {:induction false} InsertKeepsSorted(x: Listing, s: seq<Listing>)
    requires SortedByMinutes(s)
    ensures InsertByMinutes(x, s)[0] == if s == [] || x.minutesRemaining < s[0].minutesRemaining then x else s[0]
    ensures SortedByMinutes(InsertByMinutes(x, s))
  {
    if s == [] {
    } else if x.minutesRemaining < s[0].minutesRemaining {
      PrependSorted(x, s);
    } else {
      var tail := s[1..];
      assert SortedByMinutes(tail);
      InsertKeepsSorted(x, tail);
      PrependSorted(s[0], InsertByMinutes(x, tail));
    }
  }

  /** Python's stable sort by minutes remaining, as an insertion sort: the
      result is ordered by minutes remaining and holds the same listings. */
  function SortByMinutes(s: seq<Listing>): (r: seq<Listing>)
    ensures SortedByMinutes(r)
    ensures multiset(r) == multiset(s)
    ensures |r| == |s|
  {
    if s == [] then []
    else
      assert s == s[..|s| - 1] + [s[|s| - 1]];
      InsertKeepsSorted(s[|s| - 1], SortByMinutes(s[..|s| - 1]));
      InsertByMinutes(s[|s| - 1], SortByMinutes(s[..|s| - 1]))
  }

  /** A spoken line, numbered from 1. */
  datatype SpokenItem = SpokenItem(ordinal: nat, listing: Listing)

  /** The summary: the count of running auctions for the prefix "There are
      <n> active auctions.", all running auctions by urgency, and the (at
      most) three most urgent ones that are read out. */
  datatype VoiceSummary = VoiceSummary(totalActive: nat, listings: seq<Listing>, spoken: seq<SpokenItem>)

  const SPOKEN_LIMIT: nat := 3

  /** The lines read out: the first (at most) three listings, numbered
      from 1. */
  function SpokenLines(listings: seq<Listing>): (r: seq<SpokenItem>)
    ensures |r| == if |listings| < SPOKEN_LIMIT then |listings| else SPOKEN_LIMIT
    ensures forall i :: 0 <= i < |r| ==> r[i] == SpokenItem(i + 1, listings[i])
  {
    var n := if |listings| < SPOKEN_LIMIT then |listings| else SPOKEN_LIMIT;
    seq(n, i requires 0 <= i < n => SpokenItem(i + 1, listings[i]))
  }

  function SummaryOf(products: map<string, Product>, keys: seq<string>, now: Time): (r: VoiceSummary)
    ensures r.totalActive == |ActiveListings(products, keys, now)| == |r.listings|
    ensures |r.spoken| == if r.totalActive < SPOKEN_LIMIT then r.totalActive else SPOKEN_LIMIT
    ensures forall i :: 0 <= i < |r.spoken| ==> r.spoken[i] == SpokenItem(i + 1, r.listings[i])
  {
    var active := ActiveListings(products, keys, now);
    var sorted := SortByMinutes(active);
    VoiceSummary(|active|, sorted, SpokenLines(sorted))
  }

  /** The summary lists the running auctions, ordered by minutes remaining,
      and reads out the most urgent ones: no listing left unspoken has fewer
      minutes remaining than a spoken one. */
  lemma SummarySpeaksMostUrgent(products: map<string, Product>, keys: seq<string>, now: Time)
    ensures var r := SummaryOf(products, keys, now);
      && multiset(r.listings) == multiset(ActiveListings(products, keys, now))
      && SortedByMinutes(r.listings)
      && forall i, j :: 0 <= i < |r.spoken| && |r.spoken| <= j < |r.listings| ==>
           r.spoken[i].listing.minutesRemaining <= r.listings[j].minutesRemaining
  {
    var r := SummaryOf(products, keys, now);
    assert r.listings == SortByMinutes(ActiveListings(products, keys, now));
  }

  /** Every spoken line is a running auction's. */
  lemma SummaryListsOnlyRunningAuctions(products: map<string, Product>, keys: seq<string>, now: Time)
    ensures var r := SummaryOf(products, keys, now);
      forall i :: 0 <= i < |r.spoken| ==>
        var id := r.spoken[i].listing.productId;
        id in products && Running(products[id], now)
  {
    var r := SummaryOf(products, keys, now);
    var active := ActiveListings(products, keys, now);
    forall i | 0 <= i < |r.spoken|
      ensures r.spoken[i].listing.productId in products && Running(products[r.spoken[i].listing.productId], now)
    {
      var l := r.listings[i];
      assert l in multiset(r.listings);
      assert l in active;
    }
  }

  /** The standing bids a user is winning, in order. */
  function WinningBids(bids: seq<ActiveBid>): (r: seq<ActiveBid>)
    ensures forall b :: b in r <==> b in bids && b.status == Winning
  {
    if bids == [] then []
    else (if bids[0].status == Winning then [bids[0]] else []) + WinningBids(bids[1..])
  }

  /** The standing bids a user has been outbid on, in order. */
  function OutbidBids(bids: seq<ActiveBid>): (r: seq<ActiveBid>)
    ensures forall b :: b in r <==> b in bids && b.status == Outbid
  {
    if bids == [] then []
    else (if bids[0].status == Outbid then [bids[0]] else []) + OutbidBids(bids[1..])
  }

  /** Every standing bid is either winning or outbid, so the two lists split
      the standing bids between them. */
  lemma {:induction false} StandingsPartition(bids: seq<ActiveBid>)
    ensures |WinningBids(bids)| + |OutbidBids(bids)| == |bids|
    ensures multiset(WinningBids(bids)) + multiset(OutbidBids(bids)) == multiset(bids)
  {
    if bids != [] {
      StandingsPartition(bids[1..]);
      assert bids == [bids[0]] + bids[1..];
    }
  }

  /** The counts the user-status endpoint reports. */
  datatype UserStatus = UserStatus(totalActiveBids: nat, winning: seq<ActiveBid>, outbid: seq<ActiveBid>, totalBidHistory: nat)

  datatype StatusError = InvalidSession | ServerError

  /** The voice user status: an absent, empty or unknown session id is an
      invalid session; a session whose user is not in the store makes the
      endpoint fail (its lookup raises); otherwise the user's standing. */
  function VoiceUserStatus(users: map<string, User>, sessions: map<string, Session>, sessionId: Option<string>)
    : (r: Result<UserStatus, StatusError>)
    ensures r == Failure(InvalidSession) <==>
      sessionId.None? || sessionId.value == "" || sessionId.value !in sessions
    ensures r.Success? ==> sessionId.Some? && sessionId.value in sessions && sessions[sessionId.value].userId in users
    ensures r.Success? ==>
      var u := users[sessions[sessionId.value].userId];
      && r.value.totalActiveBids == |u.activeBids|
      && r.value.totalBidHistory == |u.biddingHistory|
      && |r.value.winning| + |r.value.outbid| == r.value.totalActiveBids
      && r.value.winning == WinningBids(u.activeBids) && r.value.outbid == OutbidBids(u.activeBids)
    ensures sessionId.Some? && sessionId.value != "" && sessionId.value in sessions
      && sessions[sessionId.value].userId !in users
      ==> r == Failure(ServerError)
  {
    if sessionId.None? || sessionId.value == "" || sessionId.value !in sessions then Failure(InvalidSession)
    else
      var userId := sessions[sessionId.value].userId;
      if userId !in users then Failure(ServerError)
      else
        var u := users[userId];
        StandingsPartition(u.activeBids);
        Success(UserStatus(|u.activeBids|, WinningBids(u.activeBids), OutbidBids(u.activeBids), |u.biddingHistory|))
  }

  /** When every session's user is in the store the status lookup never
      fails on a known session. */
  lemma RegisteredSessionHasStatus(users: map<string, User>, sessions: map<string, Session>, sessionId: string)
    requires forall s :: s in sessions ==> sessions[s].userId in users
    requires sessionId != "" && sessionId in sessions
    ensures VoiceUserStatus(users, sessions, Some(sessionId)).Success?
  {
  }
}
