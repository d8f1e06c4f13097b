/** The in-memory auction store: the product and user dictionaries, the
    registry of active voice sessions, and the record of webhook deliveries
    the engine has attempted. Its methods are the engine's state changes:
    placing a voice bid, one pass of the expiry sweep, fan-out of an event,
    and starting and ending sessions. */
module AuctionHouse {
  import opened Outcomes
  import opened AuctionData
  import Clock
  import Notification
  import Bidding
  import Expiry
  import Registry

  /** The session-end endpoint's only error. */
  datatype SessionError = SessionNotFound

  /** The fields of an incoming call webhook that the engine uses; absent
      fields are empty strings. The phone number is the payload's
      `phone_number` field: session start reads that field, and the
      `caller_number` the webhook handler also reads is never used. */
  datatype CallWebhook = CallWebhook(eventType: string, sessionId: string, phoneNumber: string)

  // The seeded auctions' display texts.
  const WATCH_NAME: string := "Vintage Rolex Submariner"
  const WATCH_DESCRIPTION: string := "Rare 1965 Rolex Submariner in excellent condition with original box and papers"
  const WATCH_IMAGE: string := "https://awadwatches.com/wp-content/uploads/2019/03/1965_vintage_rolex_datejust_1601_rare_14k_gold_roman_dial_swiss_only_1.jpeg"
  const MUSTANG_NAME: string := "1967 Ford Mustang Fastback"
  const MUSTANG_DESCRIPTION: string := "Fully restored classic Mustang with 390 V8 engine, stunning condition"
  const MUSTANG_IMAGE: string := "https://bringatrailer.com/wp-content/uploads/2019/05/1967_ford_mustang_fastback_1561126084a7ce40810bf523f006_exterior.jpg"
  const SKETCH_NAME: string := "Original Van Gogh Sketch"
  const SKETCH_DESCRIPTION: string := "Authenticated Van Gogh preparatory sketch with provenance documentation"
  const SKETCH_IMAGE: string := "https://image.invaluable.com/housePhotos/Gallery320/16/665116/H19737-L198711707.jpg"

  /** The first seeded auction: one opening bid, which leads. */
  function SeedWatch(start: Time): (p: Product)
    ensures BidLogConsistent(p) && p.status == Active
  {
    Product(
      "prod_1", WATCH_NAME, WATCH_DESCRIPTION,
      50000.0, 55000.0, "user_001", start + 30 * MICROS_PER_MINUTE,
      [Bid("bid_001", "user_001", 55000.0, start - 5 * MICROS_PER_MINUTE)],
      1, Active, "watches", WATCH_IMAGE)
  }

  /** The second seeded auction: two bids, led by the first bidder. */
  function SeedMustang(start: Time): (p: Product)
    ensures BidLogConsistent(p) && p.status == Active
  {
    Product(
      "prod_2", MUSTANG_NAME, MUSTANG_DESCRIPTION,
      25000000.0, 28500000.0, "user_002", start + 45 * MICROS_PER_MINUTE,
      [Bid("bid_002", "user_002", 26000000.0, start - 10 * MICROS_PER_MINUTE),
       Bid("bid_003", "user_003", 28500000.0, start - 3 * MICROS_PER_MINUTE)],
      2, Active, "vehicles", MUSTANG_IMAGE)
  }

  /** The third seeded auction: three bids, led by the second bidder. */
  function SeedSketch(start: Time): (p: Product)
    ensures BidLogConsistent(p) && p.status == Active
  {
    var log := [Bid("bid_004", "user_003", 16000000.0, start - 15 * MICROS_PER_MINUTE),
                Bid("bid_005", "user_004", 18500000.0, start - 12 * MICROS_PER_MINUTE),
                Bid("bid_006", "user_005", 22000000.0, start - 8 * MICROS_PER_MINUTE)];
    Product(
      "prod_3", SKETCH_NAME, SKETCH_DESCRIPTION,
      15000000.0, 22000000.0, "user_004", start + 20 * MICROS_PER_MINUTE,
      log, 3, Active, "art", SKETCH_IMAGE)
  }

  /** The auctions the store starts with, deadlines and bid times relative
      to the start-up instant. */
  function SeedProducts(start: Time): (r: map<string, Product>)
    ensures r.Keys == {"prod_1", "prod_2", "prod_3"}
    ensures forall k :: k in r ==> BidLogConsistent(r[k]) && r[k].id == k
  {
    map["prod_1" := SeedWatch(start), "prod_2" := SeedMustang(start), "prod_3" := SeedSketch(start)]
  }

  /** Two seeded auctions name as leader someone other than their last
      bidder: "the leader is the last bidder" holds of every auction after
      an accepted bid on it, but not of the store as seeded. */
  lemma SeedLeadersAreNotLastBidders(start: Time)
    ensures var p := SeedMustang(start); p.highestBidder != p.biddingHistory[|p.biddingHistory| - 1].bidderId
    ensures var p := SeedSketch(start); p.highestBidder != p.biddingHistory[|p.biddingHistory| - 1].bidderId
  {
    var mustang := SeedMustang(start);
    assert mustang.highestBidder == "user_002";
    assert mustang.biddingHistory[1].bidderId == "user_003";
    var sketch := SeedSketch(start);
    assert sketch.highestBidder == "user_004";
    assert sketch.biddingHistory[2].bidderId == "user_005";
  }

  /** The seeded users: the one voice user the demo starts with. */
  function SeedUsers(): map<string, User> {
    map["voice_user_001" := User("voice_user_001", "Voice User", "+918439473928", [], 0.0, [])]
  }

  /** The store's invariant, over its contents: each key order lists its
      dictionary's keys once each; every bid log is consistent with its
      auction's leader amount and bid count; no user has two standing bids
      on one auction, and a standing bid is "winning" exactly when its user
      leads that auction; no user id is empty; every session's user is in
      the store. */
  ghost predicate StoreInvariant(products: map<string, Product>, catalogue: seq<string>, users: map<string, User>,
                                 sessions: map<string, Session>, sessionOrder: seq<string>)
  {
    && Distinct(catalogue) && (forall k :: k in products <==> k in catalogue)
    && (forall k :: k in products ==> BidLogConsistent(products[k]))
    && (forall u :: u in users ==> OneBidPerProduct(users[u].activeBids))
    && StandingsFollowLeaders(products, users) && "" !in users
    && Distinct(sessionOrder) && (forall s :: s in sessions <==> s in sessionOrder)
    && (forall s :: s in sessions ==> sessions[s].userId in users)
  }

  /** The store as seeded satisfies the invariant. */
  lemma SeedSatisfiesInvariant(start: Time)
    ensures StoreInvariant(SeedProducts(start), ["prod_1", "prod_2", "prod_3"], SeedUsers(), map[], [])
  {
  }

  /** Applying an accepted bid (auction, bidder and displaced leader
      updated) keeps the invariant. */
  lemma AcceptedBidKeepsInvariant(products: map<string, Product>, catalogue: seq<string>, users: map<string, User>,
                                  sessions: map<string, Session>, sessionOrder: seq<string>,
                                  a: Bidding.AcceptedBid, bidId: string, now: Time)
    requires StoreInvariant(products, catalogue, users, sessions, sessionOrder)
    requires a.productId in products && a.bidderId in users
    requires a.amount >= products[a.productId].currentHighestBid + MIN_INCREMENT
    ensures var p := products[a.productId];
      StoreInvariant(products[a.productId := Bidding.ProductAfterBid(p, Bid(bidId, a.bidderId, a.amount, now))], catalogue,
                     Bidding.UsersAfterBid(users, a, p.name, p.highestBidder, now), sessions, sessionOrder)
  {
    var p := products[a.productId];
    Bidding.AcceptedBidKeepsLogConsistent(p, Bid(bidId, a.bidderId, a.amount, now));
    Bidding.UsersAfterBidEffect(users, a, p.name, p.highestBidder, now);
    Bidding.UsersAfterBidKeepOneBidPerProduct(users, a, p.name, p.highestBidder, now);
    Bidding.AcceptedBidKeepsStandings(products, users, a, p.name, bidId, now);
  }

  /** Stamping a session's last activity keeps the invariant. */
  lemma ActivityStampKeepsInvariant(products: map<string, Product>, catalogue: seq<string>, users: map<string, User>,
                                    sessions: map<string, Session>, sessionOrder: seq<string>, sessionId: string, now: Time)
    requires StoreInvariant(products, catalogue, users, sessions, sessionOrder)
    requires sessionId in sessions
    ensures StoreInvariant(products, catalogue, users,
                           sessions[sessionId := sessions[sessionId].(lastActivity := now)], sessionOrder)
  {
  }

  /** A sweep keeps the invariant: it changes statuses only. */
  lemma SweepKeepsInvariant(products: map<string, Product>, catalogue: seq<string>, users: map<string, User>,
                            sessions: map<string, Session>, sessionOrder: seq<string>, now: Time)
    requires StoreInvariant(products, catalogue, users, sessions, sessionOrder)
    ensures StoreInvariant(Expiry.Swept(products, now), catalogue, users, sessions, sessionOrder)
  {
  }

  /** Starting a session keeps the invariant: a new user has no standing
      bid, and a restarted session keeps its place in the order. */
  lemma SessionStartKeepsInvariant(products: map<string, Product>, catalogue: seq<string>, users: map<string, User>,
                                   sessions: map<string, Session>, sessionOrder: seq<string>,
                                   phone: string, sessionId: string, now: Time)
    requires StoreInvariant(products, catalogue, users, sessions, sessionOrder)
    ensures StoreInvariant(products, catalogue, Registry.WithVoiceUser(users, phone, sessionId),
                           sessions[sessionId := Session(Registry.VoiceUserId(phone, sessionId), phone, now, now)],
                           if sessionId in sessions then sessionOrder else sessionOrder + [sessionId])
  {
  }

  /** Ending a session keeps the invariant. */
  lemma SessionEndKeepsInvariant(products: map<string, Product>, catalogue: seq<string>, users: map<string, User>,
                                 sessions: map<string, Session>, sessionOrder: seq<string>, sessionId: string)
    requires StoreInvariant(products, catalogue, users, sessions, sessionOrder)
    ensures StoreInvariant(products, catalogue, users, sessions - {sessionId}, Registry.Without(sessionOrder, sessionId))
  {
  }

  /** What visiting one more auction adds to a sweep's deliveries: the
      fan-out of its end, when it is due to end. */
  lemma AnnouncementsOfNextKey(order: seq<string>, products: map<string, Product>, keys: seq<string>, i: nat, now: Time)
    requires i < |keys|
    ensures var k := keys[i];
      Notification.Broadcast(order, Expiry.EndedEvents(products, keys[..i + 1], now))
      == Notification.Broadcast(order, Expiry.EndedEvents(products, keys[..i], now))
         + if k in products && Expiry.Expiring(products[k], now) then Notification.FanOut(order, Expiry.EndedEvent(k, products[k])) else []
  {
    var k := keys[i];
    var announced := Expiry.EndedEvents(products, keys[..i], now);
    assert keys[..i + 1][..i] == keys[..i];
    if k in products && Expiry.Expiring(products[k], now) {
      var ended := Expiry.EndedEvent(k, products[k]);
      assert Expiry.EndedEvents(products, keys[..i + 1], now) == announced + [ended];
      assert (announced + [ended])[..|announced|] == announced;
    } else {
      assert Expiry.EndedEvents(products, keys[..i + 1], now) == announced;
    }
  }

  /** The sweep's next key has not been visited yet, so its auction is
      still the original one when the sweep reaches it. */
  lemma NextKeyUnvisited(original: map<string, Product>, keys: seq<string>, i: nat, now: Time)
    requires Distinct(keys) && i < |keys| && keys[i] in original
    ensures Expiry.SweptInTurn(original, keys[..i], now)[keys[i]] == original[keys[i]]
    ensures Expiry.SweptInTurn(original, keys[..i + 1], now)
      == Expiry.SweptInTurn(original, keys[..i], now)[keys[i] := Expiry.Expire(original[keys[i]], now)]
  {
    assert keys[i] !in keys[..i];
    assert keys[..i + 1][..i] == keys[..i];
    Expiry.SweptInTurnExpiresVisited(original, keys[..i], now);
  }

  /** The deliveries after the sweep has visited one more key: the fan-out
      of that auction's end, if due, follows the earlier ones. */
  lemma AnnouncedThroughNextKey(recorded: seq<Notification.Delivery>, order: seq<string>, original: map<string, Product>,
                                visited: map<string, Product>, keys: seq<string>, i: nat, now: Time)
    requires i < |keys| && keys[i] in original && keys[i] in visited
    requires visited[keys[i]] == original[keys[i]]
    ensures recorded + Notification.Broadcast(order, Expiry.EndedEvents(original, keys[..i], now))
      + (if Expiry.Expiring(visited[keys[i]], now) then Notification.FanOut(order, Expiry.EndedEvent(keys[i], visited[keys[i]])) else [])
      == recorded + Notification.Broadcast(order, Expiry.EndedEvents(original, keys[..i + 1], now))
  {
    AnnouncementsOfNextKey(order, original, keys, i, now);
    AppendInTurn(recorded,
      Notification.Broadcast(order, Expiry.EndedEvents(original, keys[..i], now)),
      if Expiry.Expiring(visited[keys[i]], now) then Notification.FanOut(order, Expiry.EndedEvent(keys[i], visited[keys[i]])) else [],
      Notification.Broadcast(order, Expiry.EndedEvents(original, keys[..i + 1], now)));
  }

  /** Deliveries recorded in turn: a first batch and then a second one are
      the two batches recorded at once. */
  lemma AppendInTurn(recorded: seq<Notification.Delivery>, first: seq<Notification.Delivery>,
                     second: seq<Notification.Delivery>, both: seq<Notification.Delivery>)
    requires both == first + second
    ensures recorded + first + second == recorded + both
  {
    assert recorded + first + second == recorded + (first + second);
  }

  class Store {
    /** The auctions, and their keys in the dictionary's order. */
    var products: map<string, Product>
    var catalogue: seq<string>
    var users: map<string, User>
    /** The active voice sessions, and their ids in insertion order. */
    var sessions: map<string, Session>
    var sessionOrder: seq<string>
    /** Every webhook delivery attempted so far, in order. */
    var outbox: seq<Notification.Delivery>

    /** The store's invariant (StoreInvariant) over its current fields. */
    ghost predicate Valid()
      reads this
    {
      StoreInvariant(products, catalogue, users, sessions, sessionOrder)
    }

    /** The store as the process starts: three seeded auctions, one voice
        user, no session, nothing delivered. */
    constructor Seeded(start: Time)
      ensures Valid()
      ensures products == SeedProducts(start) && catalogue == ["prod_1", "prod_2", "prod_3"]
      ensures users == SeedUsers() && users.Keys == {"voice_user_001"}
      ensures sessions == map[] && sessionOrder == [] && outbox == []
    {
      products := SeedProducts(start);
      catalogue := ["prod_1", "prod_2", "prod_3"];
      users := SeedUsers();
      sessions := map[];
      sessionOrder := [];
      outbox := [];
      new;
      SeedSatisfiesInvariant(start);
    }

    /** Fan-out: one delivery per registered session, in registry order, with
        the event's template; nothing but the delivery record changes. */
    method Notify(e: Notification.Event)
      modifies this`outbox
      ensures outbox == old(outbox) + Notification.FanOut(sessionOrder, e)
    {
      var i := 0;
      while i < |sessionOrder|
        invariant 0 <= i <= |sessionOrder|
        invariant outbox == old(outbox) + Notification.FanOut(sessionOrder[..i], e)
      {
        assert sessionOrder[..i + 1][..i] == sessionOrder[..i];
        outbox := outbox + [Notification.Delivery(sessionOrder[i], Notification.MessageFor(e), e)];
        i := i + 1;
      }
      assert sessionOrder[..i] == sessionOrder;
    }

    /** A voice bid. Validation is Bidding.CheckVoiceBid; once the session
        resolves, its last activity is stamped, even if the bid is then
        refused. A refused bid changes nothing else; an accepted one is
        applied by ApplyBid. */
    method PlaceVoiceBid(req: Bidding.VoiceBidRequest, now: Time, bidId: string)
      returns (r: Result<Bidding.BidReceipt, Bidding.BidError>)
      requires Valid()
      modifies this
      ensures Valid()
      ensures catalogue == old(catalogue) && sessionOrder == old(sessionOrder)
      ensures sessions ==
        if Bidding.ResolvesSession(old(sessions), req)
        then old(sessions)[req.sessionId.value := old(sessions)[req.sessionId.value].(lastActivity := now)]
        else old(sessions)
      ensures var check := Bidding.CheckVoiceBid(old(products), old(sessions), req, now);
        && (r.Failure? <==> check.Failure?)
        && (r.Failure? ==> r.error == check.error && products == old(products) && users == old(users) && outbox == old(outbox))
      ensures r.Success? ==>
        var a := Bidding.CheckVoiceBid(old(products), old(sessions), req, now).value;
        var p := old(products)[a.productId];
        && products == old(products)[a.productId := Bidding.ProductAfterBid(p, Bid(bidId, a.bidderId, a.amount, now))]
        && users == Bidding.UsersAfterBid(old(users), a, p.name, p.highestBidder, now)
        && outbox == old(outbox) + Notification.Broadcast(sessionOrder, Bidding.BidEvents(p, a))
        && r.value == Bidding.BidReceipt(bidId, a.amount, p.name, a.amount, p.currentHighestBid, p.totalBids + 1,
                                         Clock.MinutesRemaining(p.auctionEndTime, now))
    {
      var check := Bidding.CheckVoiceBid(products, sessions, req, now);
      if Bidding.ResolvesSession(sessions, req) {
        var sessionId := req.sessionId.value;
        ActivityStampKeepsInvariant(products, catalogue, users, sessions, sessionOrder, sessionId, now);
        sessions := sessions[sessionId := sessions[sessionId].(lastActivity := now)];
      }
      match check
      case Failure(e) =>
        r := Failure(e);
      case Success(a) =>
        var receipt := ApplyBid(a, now, bidId);
        r := Success(receipt);
    }

    /** An accepted bid: the auction gets its new leader and log entry
        (Bidding.ProductAfterBid), the bidder and the displaced leader are
        updated (Bidding.UsersAfterBid), and Bidding.BidEvents is announced
        to every session, "outbid" before "new bid". */
    method ApplyBid(a: Bidding.AcceptedBid, now: Time, bidId: string) returns (receipt: Bidding.BidReceipt)
      requires Valid()
      requires a.productId in products && a.bidderId in users
      requires a.amount >= products[a.productId].currentHighestBid + MIN_INCREMENT
      modifies this`products, this`users, this`outbox
      ensures Valid()
      ensures var p := old(products)[a.productId];
        && products == old(products)[a.productId := Bidding.ProductAfterBid(p, Bid(bidId, a.bidderId, a.amount, now))]
        && users == Bidding.UsersAfterBid(old(users), a, p.name, p.highestBidder, now)
        && outbox == old(outbox) + Notification.Broadcast(sessionOrder, Bidding.BidEvents(p, a))
        && receipt == Bidding.BidReceipt(bidId, a.amount, p.name, a.amount, p.currentHighestBid, p.totalBids + 1,
                                         Clock.MinutesRemaining(p.auctionEndTime, now))
    {
      var product := products[a.productId];
      var bid := Bid(bidId, a.bidderId, a.amount, now);
      products := products[a.productId := Bidding.ProductAfterBid(product, bid)];
      RecordOnUsers(a, product.name, product.highestBidder, now);
      Announce(product, a);
      AcceptedBidKeepsInvariant(old(products), catalogue, old(users), sessions, sessionOrder, a, bidId, now);
      receipt := Bidding.BidReceipt(bidId, a.amount, product.name, a.amount, product.currentHighestBid,
                                    product.totalBids + 1, Clock.MinutesRemaining(product.auctionEndTime, now));
    }

    /** The users' side of an accepted bid: the bidder's history and
        standing bid, then the displaced leader's standing bids on this
        product demoted to "outbid" (Bidding.UsersAfterBid). */
    method RecordOnUsers(a: Bidding.AcceptedBid, productName: string, previousBidder: string, now: Time)
      requires a.bidderId in users
      modifies this`users
      ensures users == Bidding.UsersAfterBid(old(users), a, productName, previousBidder, now)
    {
      var user := users[a.bidderId];
      users := users[a.bidderId := Bidding.RecordBid(user, a.productId, productName, a.amount, now)];
      if Bidding.DisplacesLeader(previousBidder, a.bidderId) && previousBidder in users {
        var previous := users[previousBidder];
        var demoted := Bidding.Demote(previous.activeBids, a.productId);
        users := users[previousBidder := previous.(activeBids := demoted)];
      }
    }

    /** The announcements of an accepted bid on `p`: "outbid" to every
        session first when a different named leader was displaced, then
        "new bid" with the previous leader amount. */
    method Announce(p: Product, a: Bidding.AcceptedBid)
      modifies this`outbox
      ensures outbox == old(outbox) + Notification.Broadcast(sessionOrder, Bidding.BidEvents(p, a))
    {
      ghost var events := Bidding.BidEvents(p, a);
      var newBid := Notification.NewBidEvent(a.productId, p.name, a.amount, a.bidderId, p.currentHighestBid);
      if Bidding.DisplacesLeader(p.highestBidder, a.bidderId) {
        var outbid := Notification.OutbidEvent(a.productId, p.name, a.amount, p.highestBidder);
        assert events == [outbid, newBid];
        assert events[..1] == [outbid] && events[..1][..0] == [];
        assert Notification.Broadcast(sessionOrder, [outbid]) == Notification.FanOut(sessionOrder, outbid);
        Notify(outbid);
        Notify(newBid);
        assert outbox == old(outbox) + Notification.FanOut(sessionOrder, outbid) + Notification.FanOut(sessionOrder, newBid);
      } else {
        assert events == [newBid] && events[..0] == [];
        Notify(newBid);
      }
    }

    /** One pass of the expiry sweep: visits the auctions in dictionary order,
        ends each that is active with its deadline reached, and announces
        each such end to every session right away. */
    method SweepExpired(now: Time)
      requires Valid()
      modifies this`products, this`outbox
      ensures Valid()
      ensures products == Expiry.Swept(old(products), now)
      ensures outbox == old(outbox) + Notification.Broadcast(sessionOrder, Expiry.EndedEvents(old(products), catalogue, now))
    {
      ExpireInOrder(now);
      SweepKeepsInvariant(old(products), catalogue, users, sessions, sessionOrder, now);
    }

    /** The sweep's loop over the catalogue. */
    method ExpireInOrder(now: Time)
      requires Distinct(catalogue) && (forall k :: k in products ==> k in catalogue) && (forall j :: 0 <= j < |catalogue| ==> catalogue[j] in products)
      modifies this`products, this`outbox
      ensures products == Expiry.Swept(old(products), now)
      ensures outbox == old(outbox) + Notification.Broadcast(sessionOrder, Expiry.EndedEvents(old(products), catalogue, now))
    {
      ghost var original, recorded := products, outbox;
      var i := 0;
      while i < |catalogue|
        invariant 0 <= i <= |catalogue|
        invariant products == Expiry.SweptInTurn(original, catalogue[..i], now)
        invariant outbox == recorded + Notification.Broadcast(sessionOrder, Expiry.EndedEvents(original, catalogue[..i], now))
      {
        VisitKey(i, original, recorded, now);
        i := i + 1;
      }
      assert catalogue[..i] == catalogue;
      Expiry.SweptInTurnCoversAll(original, catalogue, now);
    }

    /** One turn of the sweep's loop: the i-th auction of the catalogue is
        visited, so the first i + 1 keys are now expired and announced. */
    method VisitKey(i: nat, ghost original: map<string, Product>, ghost recorded: seq<Notification.Delivery>, now: Time)
      requires Distinct(catalogue) && i < |catalogue| && catalogue[i] in original
      requires products == Expiry.SweptInTurn(original, catalogue[..i], now)
      requires outbox == recorded + Notification.Broadcast(sessionOrder, Expiry.EndedEvents(original, catalogue[..i], now))
      modifies this`products, this`outbox
      ensures products == Expiry.SweptInTurn(original, catalogue[..i + 1], now)
      ensures outbox == recorded + Notification.Broadcast(sessionOrder, Expiry.EndedEvents(original, catalogue[..i + 1], now))
    {
      NextKeyUnvisited(original, catalogue, i, now);
      AnnouncedThroughNextKey(recorded, sessionOrder, original, products, catalogue, i, now);
      ExpireStep(catalogue[i], now);
    }

    /** The sweep's step on one auction: ended if due, and then announced
        to every session. */
    method ExpireStep(productId: string, now: Time)
      requires productId in products
      modifies this`products, this`outbox
      ensures var p := old(products)[productId];
        && products == old(products)[productId := Expiry.Expire(p, now)]
        && outbox == old(outbox) + if Expiry.Expiring(p, now) then Notification.FanOut(sessionOrder, Expiry.EndedEvent(productId, p)) else []
    {
      var product := products[productId];
      if product.status == Active && now >= product.auctionEndTime {
        products := products[productId := product.(status := Ended)];
        Notify(Expiry.EndedEvent(productId, product));
      } else {
        assert products == products[productId := product];
      }
    }

    /** Session start: the session id is the one requested or a fresh one;
        the session's user is derived from the phone number or the session
        id and created only if absent; the session is registered (a session
        id already registered keeps its place in the order). */
    method StartSession(phone: string, requestedId: Option<string>, freshId: string, now: Time)
      returns (sessionId: string, userId: string)
      requires Valid()
      modifies this
      ensures Valid()
      ensures sessionId == if requestedId.Some? then requestedId.value else freshId
      ensures userId == Registry.VoiceUserId(phone, sessionId)
      ensures users == Registry.WithVoiceUser(old(users), phone, sessionId)
      ensures sessions == old(sessions)[sessionId := Session(userId, phone, now, now)]
      ensures sessionOrder == if sessionId in old(sessions) then old(sessionOrder) else old(sessionOrder) + [sessionId]
      ensures products == old(products) && catalogue == old(catalogue) && outbox == old(outbox)
    {
      sessionId := if requestedId.Some? then requestedId.value else freshId;
      SessionStartKeepsInvariant(products, catalogue, users, sessions, sessionOrder, phone, sessionId, now);
      userId := Registry.VoiceUserId(phone, sessionId);
      users := Registry.WithVoiceUser(users, phone, sessionId);
      if sessionId !in sessions {
        sessionOrder := sessionOrder + [sessionId];
      }
      sessions := sessions[sessionId := Session(userId, phone, now, now)];
    }

    /** Session end: an unknown id is reported and changes nothing; a known
        one is removed and returned. */
    method EndSession(sessionId: string) returns (r: Result<Session, SessionError>)
      requires Valid()
      modifies this
      ensures Valid()
      ensures sessionId !in old(sessions) ==>
        r == Failure(SessionNotFound) && sessions == old(sessions) && sessionOrder == old(sessionOrder)
      ensures sessionId in old(sessions) ==>
        && r == Success(old(sessions)[sessionId])
        && sessions == old(sessions) - {sessionId}
        && sessionOrder == Registry.Without(old(sessionOrder), sessionId)
      ensures products == old(products) && catalogue == old(catalogue) && users == old(users) && outbox == old(outbox)
    {
      SessionEndKeepsInvariant(products, catalogue, users, sessions, sessionOrder, sessionId);
      if sessionId in sessions {
        r := Success(sessions[sessionId]);
        sessions := sessions - {sessionId};
        sessionOrder := Registry.Without(sessionOrder, sessionId);
      } else {
        r := Failure(SessionNotFound);
      }
    }

    /** A call webhook: "call_started" with a session id starts that session
        for the payload's phone number; "call_ended" with a session id
        removes it when registered; anything else changes nothing. */
    method HandleCallWebhook(hook: CallWebhook, freshId: string, now: Time)
      requires Valid()
      modifies this
      ensures Valid()
      ensures hook.eventType == "call_started" && hook.sessionId != "" ==>
        && sessions == old(sessions)[hook.sessionId := Session(Registry.VoiceUserId(hook.phoneNumber, hook.sessionId), hook.phoneNumber, now, now)]
        && users == Registry.WithVoiceUser(old(users), hook.phoneNumber, hook.sessionId)
        && sessionOrder == if hook.sessionId in old(sessions) then old(sessionOrder) else old(sessionOrder) + [hook.sessionId]
      ensures hook.eventType == "call_ended" && hook.sessionId != "" ==>
        && sessions == old(sessions) - {hook.sessionId} && users == old(users)
        && sessionOrder == Registry.Without(old(sessionOrder), hook.sessionId)
      ensures !((hook.eventType == "call_started" || hook.eventType == "call_ended") && hook.sessionId != "") ==>
        sessions == old(sessions) && sessionOrder == old(sessionOrder) && users == old(users)
      ensures products == old(products) && catalogue == old(catalogue) && outbox == old(outbox)
    {
      if hook.eventType == "call_started" && hook.sessionId != "" {
        var _, _ := StartSession(hook.phoneNumber, Some(hook.sessionId), freshId, now);
      } else if hook.eventType == "call_ended" && hook.sessionId != "" {
        if hook.sessionId in sessions {
          var _ := EndSession(hook.sessionId);
        }
      }
    }
  }
}
