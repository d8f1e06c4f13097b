/** Fan-out of engine events to every registered voice session. Each event
    kind has its own message template; the message, the session and the
    event itself (the webhook's payload) make up one delivery attempt. The
    outbound webhook call is not part of this model: a delivery is recorded,
    not performed. */
module Notification {
  import opened AuctionData

  datatype Event =
    | AuctionEndedEvent(productId: string, productName: string, finalAmount: Money, winner: string)
    | NewBidEvent(productId: string, productName: string, amount: Money, bidderId: string, previousAmount: Money)
    | OutbidEvent(productId: string, productName: string, newAmount: Money, previousBidder: string)

  /** The three templates, with their formatted values kept abstract:
      "ATTENTION: The auction for <name> has ended! Final winning bid: $<final>",
      "NEW BID ALERT: $<amount> placed on <name>",
      "You have been outbid on <name>! New highest bid: $<new>". */
  datatype Message =
    | EndedNotice(productName: string, finalAmount: Money)
    | NewBidAlert(amount: Money, productName: string)
    | OutbidNotice(productName: string, newAmount: Money)

  /** The amount a message quotes. */
  function Quoted(m: Message): Money {
    match m
    case EndedNotice(_, amount) => amount
    case NewBidAlert(amount, _) => amount
    case OutbidNotice(_, amount) => amount
  }

  /** One attempted webhook delivery. */
  datatype Delivery = Delivery(sessionId: string, message: Message, payload: Event)

  /** The amount an event announces. */
  function Announced(e: Event): Money {
    match e
    case AuctionEndedEvent(_, _, amount, _) => amount
    case NewBidEvent(_, _, amount, _, _) => amount
    case OutbidEvent(_, _, amount, _) => amount
  }

  /** The template is chosen by the event's kind and names the event's
      product and amount. */
  function MessageFor(e: Event): (m: Message)
    ensures m.EndedNotice? <==> e.AuctionEndedEvent?
    ensures m.NewBidAlert? <==> e.NewBidEvent?
    ensures m.OutbidNotice? <==> e.OutbidEvent?
    ensures m.productName == e.productName
    ensures Quoted(m) == Announced(e)
  {
    match e
    case AuctionEndedEvent(_, name, amount, _) => EndedNotice(name, amount)
    case NewBidEvent(_, name, amount, _, _) => NewBidAlert(amount, name)
    case OutbidEvent(_, name, amount, _) => OutbidNotice(name, amount)
  }

  /** The deliveries one event produces, one per session in registry order. */
  function FanOut(order: seq<string>, e: Event): (r: seq<Delivery>)
    ensures |r| == |order|
  {
    if order == [] then []
    else FanOut(order[..|order| - 1], e) + [Delivery(order[|order| - 1], MessageFor(e), e)]
  }

  /** The deliveries a sequence of events produces, event after event. */
  function Broadcast(order: seq<string>, events: seq<Event>): seq<Delivery> {
    if events == [] then []
    else Broadcast(order, events[..|events| - 1]) + FanOut(order, events[|events| - 1])
  }

  /** How many deliveries went to session `s`. */
  function DeliveriesTo(ds: seq<Delivery>, s: string): nat {
    if ds == [] then 0
    else DeliveriesTo(ds[..|ds| - 1], s) + (if ds[|ds| - 1].sessionId == s then 1 else 0)
  }

  /** The i-th delivery of a fan-out goes to the i-th registered session,
      with the event's own template and the event as payload. */
  lemma {:induction false} FanOutAt(order: seq<string>, e: Event)
    ensures forall i :: 0 <= i < |order| ==>
      FanOut(order, e)[i] == Delivery(order[i], MessageFor(e), e)
  {
    if order != [] {
      FanOutAt(order[..|order| - 1], e);
    }
  }

  /** Fan-out reaches every registered session exactly once and no other
      session. */
  lemma {:induction false} FanOutOncePerSession(order: seq<string>, e: Event, s: string)
    requires Distinct(order)
    ensures DeliveriesTo(FanOut(order, e), s) == if s in order then 1 else 0
  {
    if order != [] {
      var init := order[..|order| - 1];
      assert Distinct(init);
      FanOutOncePerSession(init, e, s);
      var r := FanOut(order, e);
      assert r[..|r| - 1] == FanOut(init, e);
      assert s in order <==> s in init || s == order[|order| - 1];
      assert order[|order| - 1] !in init;
    }
  }

  /** Broadcasting two runs of events is broadcasting the first run, then
      the second: no delivery of a later event precedes one of an earlier
      event. */
  lemma {:induction false} BroadcastAppend(order: seq<string>, first: seq<Event>, second: seq<Event>)
    ensures Broadcast(order, first + second) == Broadcast(order, first) + Broadcast(order, second)
    decreases |second|
  {
    if second == [] {
      assert first + second == first;
    } else {
      var init := second[..|second| - 1];
      var last := second[|second| - 1];
      var all := first + second;
      assert all[..|all| - 1] == first + init;
      assert all[|all| - 1] == last;
      BroadcastAppend(order, first, init);
      Regrouped(Broadcast(order, first), Broadcast(order, init), FanOut(order, last));
    }
  }
}
