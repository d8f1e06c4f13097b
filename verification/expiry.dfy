/** The body of the background expiry sweep: every auction still "active"
    whose deadline has passed becomes "ended", and each such transition is
    announced once with the final amount and the winner. The polling thread
    and its 30-second sleep are not part of this model; one sweep takes the
    current instant as a parameter. */
module Expiry {
  import opened AuctionData
  import Notification

  /** The sweep's test: still active, and the deadline has been reached. */
  predicate Expiring(p: Product, now: Time) {
    p.status == Active && now >= p.auctionEndTime
  }

  /** One auction after the sweep has looked at it: only its status may
      change, and it is "ended" afterwards exactly when it was ended before or
      was due to end. */
  function Expire(p: Product, now: Time): (q: Product)
    ensures q.status == Ended <==> p.status == Ended || Expiring(p, now)
    ensures q.(status := p.status) == p
  {
    if Expiring(p, now) then p.(status := Ended) else p
  }

  /** All auctions after one sweep. */
  function Swept(products: map<string, Product>, now: Time): (r: map<string, Product>)
    ensures r.Keys == products.Keys
  {
    map k | k in products :: Expire(products[k], now)
  }

  /** The announcement of an auction's end. */
  function EndedEvent(productId: string, p: Product): Notification.Event {
    Notification.AuctionEndedEvent(productId, p.name, p.currentHighestBid, p.highestBidder)
  }

  /** The announcements one sweep makes, visiting the auctions in `keys`
      order: one per visited auction that is due to end. */
  function EndedEvents(products: map<string, Product>, keys: seq<string>, now: Time): seq<Notification.Event> {
    if keys == [] then []
    else
      var k := keys[|keys| - 1];
      EndedEvents(products, keys[..|keys| - 1], now)
      + if k in products && Expiring(products[k], now) then [EndedEvent(k, products[k])] else []
  }

  /** Every announcement is for a visited auction that was due to end and
      carries its final amount and winner; every such auction is announced;
      and when no auction is visited twice, none is announced twice. */
  lemma {:induction false} EndedEventsAnnounceExactlyTheExpired(products: map<string, Product>, keys: seq<string>, now: Time)
    ensures forall e :: e in EndedEvents(products, keys, now) ==>
      && e.productId in keys && e.productId in products
      && Expiring(products[e.productId], now)
      && e == EndedEvent(e.productId, products[e.productId])
    ensures forall k :: k in keys && k in products && Expiring(products[k], now) ==>
      EndedEvent(k, products[k]) in EndedEvents(products, keys, now)
    ensures Distinct(keys) ==> forall i, j :: 0 <= i < j < |EndedEvents(products, keys, now)| ==>
      EndedEvents(products, keys, now)[i].productId != EndedEvents(products, keys, now)[j].productId
  {
    if keys != [] {
      var init := keys[..|keys| - 1];
      var k := keys[|keys| - 1];
      EndedEventsAnnounceExactlyTheExpired(products, init, now);
      var prior := EndedEvents(products, init, now);
      var r := EndedEvents(products, keys, now);
      assert forall x :: x in keys <==> x in init || x == k;
      var last := if k in products && Expiring(products[k], now) then [EndedEvent(k, products[k])] else [];
      assert r == prior + last;
      forall e | e in r
        ensures && e.productId in keys && e.productId in products
                && Expiring(products[e.productId], now)
                && e == EndedEvent(e.productId, products[e.productId])
      {
        if e !in prior {
          assert e in last;
        }
      }
      if Distinct(keys) {
        assert k !in init && Distinct(init);
        forall i, j | 0 <= i < j < |r| ensures r[i].productId != r[j].productId {
          if j < |prior| {
            assert r[i] == prior[i] && r[j] == prior[j];
          } else {
            assert r[i] == prior[i] && prior[i] in prior && r[j] == last[0];
          }
        }
      }
    }
  }

  /** Once an auction is not due to end, no sweep visiting it announces it. */
  lemma {:induction false} NothingDueNothingAnnounced(products: map<string, Product>, keys: seq<string>, now: Time)
    requires forall k :: k in products ==> !Expiring(products[k], now)
    ensures EndedEvents(products, keys, now) == []
  {
    if keys != [] {
      NothingDueNothingAnnounced(products, keys[..|keys| - 1], now);
    }
  }

  /** A second sweep at the same instant changes nothing and announces
      nothing. */
  lemma SweepIsIdempotent(products: map<string, Product>, keys: seq<string>, now: Time)
    ensures Swept(Swept(products, now), now) == Swept(products, now)
    ensures EndedEvents(Swept(products, now), keys, now) == []
  {
    NothingDueNothingAnnounced(Swept(products, now), keys, now);
  }

  /** "ended" is never undone: a later sweep keeps every ended auction
      ended and announces none of them again. */
  lemma EndedIsFinal(products: map<string, Product>, keys: seq<string>, earlier: Time, later: Time)
    requires earlier <= later
    ensures forall k :: k in products && products[k].status == Ended ==> Swept(products, later)[k].status == Ended
    ensures forall e :: e in EndedEvents(Swept(products, earlier), keys, later) ==>
      e.productId in products && products[e.productId].status == Active && !Expiring(products[e.productId], earlier)
  {
    EndedEventsAnnounceExactlyTheExpired(Swept(products, earlier), keys, later);
  }

  /** Exactly the auctions that were active with their deadline reached are
      ended by the sweep; every other auction is left as it was. */
  lemma SweepEndsExactlyTheExpired(products: map<string, Product>, now: Time, k: string)
    requires k in products
    ensures products[k].status == Active && Swept(products, now)[k].status == Ended
      <==> Expiring(products[k], now)
    ensures !Expiring(products[k], now) ==> Swept(products, now)[k] == products[k]
  {
  }

  /** The auctions after the sweep has visited `keys` in turn, changing
      each visited auction in place. */
  function SweptInTurn(products: map<string, Product>, keys: seq<string>, now: Time): (r: map<string, Product>)
    ensures r.Keys == products.Keys
  {
    if keys == [] then products
    else
      var visited := SweptInTurn(products, keys[..|keys| - 1], now);
      var k := keys[|keys| - 1];
      if k in visited then visited[k := Expire(visited[k], now)] else visited
  }

  /** Expiring an auction a second time changes nothing. */
  lemma ExpireIdempotent(p: Product, now: Time)
    ensures Expire(Expire(p, now), now) == Expire(p, now)
  {
  }

  /** Visiting the auctions in turn expires exactly the visited ones, however
      often a key is visited. */
  lemma {:induction false} SweptInTurnExpiresVisited(products: map<string, Product>, keys: seq<string>, now: Time)
    ensures forall k :: k in products ==>
      SweptInTurn(products, keys, now)[k] == if k in keys then Expire(products[k], now) else products[k]
  {
    if keys != [] {
      var init := keys[..|keys| - 1];
      SweptInTurnExpiresVisited(products, init, now);
      assert forall k :: k in keys <==> k in init || k == keys[|keys| - 1];
      forall k | k in products && k == keys[|keys| - 1] && k in init {
        ExpireIdempotent(products[k], now);
      }
    }
  }

  /** Once every auction has been visited, the sweep in turn is the sweep. */
  lemma SweptInTurnCoversAll(products: map<string, Product>, keys: seq<string>, now: Time)
    requires forall k :: k in products ==> k in keys
    ensures SweptInTurn(products, keys, now) == Swept(products, now)
  {
    SweptInTurnExpiresVisited(products, keys, now);
  }
}
