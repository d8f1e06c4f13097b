# Voice auction engine — a Dafny model

This project models the in-memory engine of the voice auction back end in
`app.py`. It covers:

- the auctions, users and active voice sessions the back end keeps in memory;
- bid validation and acceptance on the voice endpoint, and validation on the
  original bid endpoint;
- the expiry sweep that ends auctions whose deadline has passed;
- the fan-out of "auction ended", "new bid" and "outbid" announcements to
  every active voice session;
- voice-session start and end, and the call webhook that starts or ends
  them;
- the read-side derivations: minutes remaining, the minimum next bid, the
  spoken auction summary, the urgency bands, the auction details and the
  caller's winning and outbid standing.

The files:

- `auction_data.dfy`: the data model and the invariants the store keeps.
  - Data model: auctions with their bid log, users with their history and
    standing bids, and sessions.
  - Invariants: each auction's bid log is consistent with its leader amount
    and bid count; no user has two standing bids on one auction; and a
    standing bid is "winning" exactly when its user leads that auction.
  - Time is an integer number of microseconds and amounts are reals.
- `outcomes.dfy`: the Option and Result types.
- `clock.dfy`: whole minutes and seconds remaining, truncated as `int(...)`
  truncates.
- `bidding.dfy`: the pieces of a bid.
  - The checks, in the endpoint's order, each with its own error.
  - The update of the auction.
  - The bidder's history entry and standing bid.
  - The demotion of the displaced leader.
  - The events the bid announces.
- `expiry.dfy`: one pass of the expiry sweep, and the announcements it makes.
- `notification.dfy`: the message template per event type, and the fan-out
  to every session in registration order.
- `registry.dfy`: the voice user id derived from the phone number or the
  session id; creation of that user only when absent; removal of a session
  id from the registration order.
- `views.dfy`: the read side.
  - The per-auction view of the auction list, with urgency.
  - The voice details.
  - The spoken summary: running auctions sorted by minutes remaining, the
    first three read out.
  - The caller's status.
- `auction_house.dfy`: the store itself.
  - The class `Store` holds:
    - the product, user and session dictionaries;
    - the key orders of the product and session dictionaries (Python
      dictionaries iterate in insertion order);
    - the record of attempted deliveries.
  - Its methods are the engine's state changes. Each is proved against the
    functions above and keeps the store invariant `StoreInvariant`, which
    adds to the invariants above that no user id is empty and that every
    session's user exists.
  - The seeded constructor reproduces the three demo auctions and the demo
    voice user.
- `amount_checks.dfy`: the two amount checks as written, under the
  comparison semantics of floating-point NaN and infinity (see Findings).

The clock, bid ids and fresh session ids are parameters. Webhook delivery is
modelled as an entry appended to the store's `outbox`: the session, the
message and the event payload.

Where the code and its documentation differ, the model follows the code:

- **No lazy expiry.** A bid on an auction whose deadline has passed is
  refused, but its stored status stays "active" until the sweep runs. The
  direct details endpoint marks an auction "ended" only on the copy it
  returns (app.py:855, 869-870). Only the sweep changes a status.
- **The call webhook ignores `caller_number`.** The `call_started` branch
  reads the caller number into a variable it never uses. The session it
  starts takes the payload's `phone_number` field (app.py:336-337, 215).
- **Session start is broken in the source.** The handler reads its
  inputs at app.py:214-216. A pasted copy of the bid-update code follows
  (app.py:218-299). As written, the handler reaches app.py:221 and raises
  NameError on `bidder_id`. Its own `except` at app.py:297-299 turns that
  into a 500 response, and no user or session is registered. The
  webhook's `call_started` branch calls the handler and ignores its result
  (app.py:337). The real session-start code sits at app.py:416-434, after
  a line that is not valid Python (app.py:415). The model takes
  app.py:416-434 as the continuation of app.py:214-216, so a session start
  registers the session. The pasted copy is not modelled; it also demotes
  the previous leader without the "different bidder" guard of app.py:677.
- **Last activity is stamped before the product check.** A voice bid
  stamps the session's last activity once the session resolves, even when
  the bid is then refused (app.py:594).
- **The seed breaks "leader = last bidder".** Two seeded auctions name as
  leader a user other than their last bidder (app.py:58, 69-70, 85,
  101-102). The store invariant therefore does not include that rule. It
  holds of every auction after an accepted bid on it
  (`Bidding.AcceptedBidKeepsLogConsistent`).

## Model

| member | source | states |
|---|---|---|
| Clock.MinutesRemaining | app.py:481 | zero once the deadline is reached; otherwise the whole minutes left, truncated: m minutes means at least m and fewer than m+1 minutes remain |
| Clock.SecondsRemaining | app.py:535 | the seconds part is below 60 and, with the whole minutes, brackets the time left to the second |
| Clock.MinutesRemainingNonIncreasing | app.py:481 | the minutes remaining never grow as time passes |
| Notification.MessageFor | app.py:192-198 | the template follows the event type one-to-one (ended, new bid, outbid), names the event's product and quotes the amount the event announces (final, new or new highest bid) |
| Notification.FanOut | app.py:190-200 | one delivery per registered session |
| Notification.FanOutAt | app.py:190-200 | the i-th delivery goes to the i-th session in registration order, with the event's template and the event as payload |
| Notification.FanOutOncePerSession | app.py:188-203 | with distinct session ids, each registered session receives exactly one delivery and no other session receives any |
| Notification.Broadcast | app.py:685-701 | the deliveries of a run of events: each event's fan-out, event after event. Its properties are stated by BroadcastAppend and FanOutAt |
| Notification.BroadcastAppend | app.py:685-701 | announcing two batches of events in turn delivers the first batch's fan-outs and then the second's |
| Bidding.MinimumNextBid | app.py:624 | the minimum next bid is above the current leader amount |
| Bidding.AuctionRules | app.py:605-637 | checks in the source's order. A bid passes iff the amount is a number, the auction is active with its deadline not reached, and the amount is at least the leader amount plus 50. A non-number is InvalidAmount; a closed auction is AuctionEnded; at most the leader amount is BidTooLow with the current and minimum amounts; a number above the leader amount but below the minimum is IncrementTooSmall with the minimum, and IncrementTooSmall is given only there |
| Bidding.CheckVoiceBid | app.py:569-637 | a voice bid passes iff all three fields are present, the session is registered, the product exists and the auction's rules pass. The bidder is the session's user, and the accepted amount is exactly the requested number. A missing product_id, amount or session_id is reported in that order; then an unknown session, then an unknown product, each with its own error; after that the rules' own error is returned unchanged |
| Bidding.CheckDirectBid | app.py:893-925 | on the original endpoint an unknown product is reported first, then a missing amount or bidder as MissingBidInfo, then the rules' own error unchanged; an accepted bid is attributed to the given bidder at the given amount |
| Bidding.ResolvesSession | app.py:583-594 | the request has all three fields and names a registered session: the point from which the session's last activity is stamped |
| Bidding.ProductAfterBid | app.py:652-655 | the auction after a bid: new leader and amount, bid appended to the log, one more bid counted. Its properties are stated by AcceptedBidKeepsLogConsistent |
| Bidding.AcceptedBidKeepsLogConsistent | app.py:652-655 | an accepted bid appends exactly one log entry and counts one more bid. The leader is the new last bidder, and the leader amount rises by at least 50. The log stays consistent, its earlier entries are unchanged, and the auction's id, name, status and deadline are kept |
| Bidding.WithoutProduct | app.py:668 | dropping a product's standing bids keeps exactly the others and keeps at most one bid per product |
| Bidding.WithoutProductIdempotent | app.py:668 | dropping a product's standing bids twice is dropping them once |
| Bidding.WithoutProductAppend | app.py:668-674 | an appended entry for the product does not change what is left when that product is dropped |
| Bidding.RecordBid | app.py:658-674 | the bidder after a bid: a "winning" history entry appended, the standing bid on this product replaced by a "winning" one at the end. Its properties are stated by RecordBidEffect |
| Bidding.RecordBidEffect | app.py:658-674 | the bidder's history gains exactly one "winning" entry. Standing bids on other products are unchanged. Exactly one standing bid on this product remains, last, "winning", at the bid amount |
| Bidding.MarkedOutbid | app.py:680-682 | one standing bid after demotion: "outbid" when on this product, unchanged otherwise |
| Bidding.Demoted | app.py:680-682 | the standing bids after demotion, position by position. Its properties are stated by DemotionTouchesOnlyThisProduct |
| Bidding.Demote | app.py:680-682 | the loop over the previous leader's standing bids yields exactly the position-wise demotion |
| Bidding.DemotionTouchesOnlyThisProduct | app.py:677-682 | demotion marks every entry on this product "outbid". It changes no product id, amount or order, leaves entries on other products alone, and keeps one bid per product |
| Bidding.DemotedWithoutProduct | app.py:680-682 | demotion leaves the other products' standing bids exactly as they were |
| Bidding.UsersAfterBid | app.py:657-682 | the users after an accepted bid: the bidder recorded, then a different, named leader who is a known user demoted. Its properties are stated by UsersAfterBidEffect |
| Bidding.UsersAfterBidEffect | app.py:657-682 | only the bidder and the displaced leader change. The bidder is updated as above; a different, named leader who is a known user is demoted on this product; no user is added or removed |
| Bidding.UsersAfterBidKeepOneBidPerProduct | app.py:667-682 | after an accepted bid every user still has at most one standing bid per product |
| Bidding.AcceptedBidKeepsStandings | app.py:652-682 | after an accepted bid every standing bid still names a stored auction and is "winning" exactly when its user leads that auction, provided no user id is empty |
| Bidding.BidderStandings | app.py:658-674 | the new leader's standing bids follow the leaders once its entry on this auction is replaced by a "winning" one |
| Bidding.DemotedStandings | app.py:677-682 | a displaced leader's standing bids follow the leaders once demoted on that auction |
| Bidding.DisplacesLeader | app.py:677 | a bid displaces the previous leader when that leader is named (non-empty) and is not the bidder: the guard for demotion and for the "outbid" announcement |
| Bidding.BidEvents | app.py:676-701 | "new bid" is always announced last, with the previous leader amount. "Outbid" comes first exactly when a different, named leader is displaced |
| Bidding.EndedAuctionAcceptsNoBid | app.py:614-621 | an auction that is ended, or whose deadline is reached, refuses every bid on both endpoints |
| Bidding.MinimumNextBidIsExact | app.py:624-637 | on a running auction a bid of exactly the quoted minimum passes, and any lower amount is refused as too low or too small an increment |
| Expiry.Expire | app.py:170-171 | the sweep changes only the status. An auction is "ended" afterwards iff it was ended before or was active with its deadline reached |
| Expiry.Expiring | app.py:170 | an auction is due to end when it is active and its deadline is reached |
| Expiry.Swept | app.py:169-171 | the sweep neither adds nor removes auctions |
| Expiry.SweptInTurn | app.py:169-171 | changing the visited auctions in place one key at a time neither adds nor removes auctions |
| Expiry.ExpireIdempotent | app.py:170-171 | expiring an auction a second time changes nothing |
| Expiry.SweptInTurnExpiresVisited | app.py:169-171 | after the in-place visits, exactly the visited auctions are expired and the others are as they were, however often a key is visited |
| Expiry.SweptInTurnCoversAll | app.py:169-171 | once every auction has been visited, the in-place sweep is the sweep |
| Expiry.EndedEvent | app.py:175-181 | the announcement of an auction's end: its id, name, final amount and winner |
| Expiry.EndedEvents | app.py:169-181 | the announcements of one sweep, in key order. Their properties are stated by EndedEventsAnnounceExactlyTheExpired |
| Expiry.EndedEventsAnnounceExactlyTheExpired | app.py:169-181 | every announcement is for a visited auction that was due to end, with its final amount and winner. Every such auction is announced, and none twice when keys are distinct |
| Expiry.NothingDueNothingAnnounced | app.py:170 | a sweep over auctions none of which is due announces nothing |
| Expiry.SweepIsIdempotent | app.py:169-181 | a second sweep at the same instant changes nothing and announces nothing |
| Expiry.EndedIsFinal | app.py:169-171 | "ended" is never undone, and a later sweep announces only auctions the earlier one left running |
| Expiry.SweepEndsExactlyTheExpired | app.py:169-171 | exactly the active auctions whose deadline is reached turn from active to ended; every other auction is left unchanged |
| Registry.StripPhone | app.py:416 | the result keeps exactly the phone number's characters other than '+' and '-', and is no longer than the number |
| Registry.StripPhoneKeepsOrder | app.py:416 | stripping works character by character: the strip of a concatenation is the concatenation of the strips, and one character is kept exactly when it is not '+' or '-'. So the kept characters stay in their order |
| Registry.StripPhoneIdempotent | app.py:416 | stripping separators twice is stripping them once |
| Registry.VoiceUserId | app.py:416 | the id is "voice_user_" followed exactly by the stripped phone number, which has no '+' or '-', or by the session id when there is no phone number |
| Registry.VoiceUserIdIdentifiesCaller | app.py:416 | two callers with phone numbers are the same user, from any sessions, iff their numbers agree once separators are removed. Without a phone number, two sessions share a user iff their ids are equal |
| Registry.VoiceUserName | app.py:421 | the new user's display name: the phone number, or the first eight characters of the session id |
| Registry.WithVoiceUser | app.py:418-426 | the session's user is added only when absent, with the derived id and display name, the session's phone, no history, no standing bids and nothing spent; existing users are never replaced |
| Registry.Without | app.py:454 | removing a session id keeps exactly the other ids and keeps them distinct; an absent id changes nothing |
| Registry.WithoutKeepsOrder | app.py:454 | removal works run by run: removing from a concatenation is removing from each part, so the remaining ids keep their insertion order |
| Views.UrgencyOf | app.py:814-825 | no urgency exactly when the auction is not running; otherwise "high" under 5 minutes left, "medium" under 15, else "low" |
| Views.UrgencyNeverDrops | app.py:814-819 | urgency only rises as time passes |
| Views.ViewOf | app.py:804-825 | the list shows "active" iff the auction is running, and never shows an ended auction as active. Shown times are zero with no urgency when not running; otherwise the truncated minutes remaining, the seconds part and the urgency band |
| Views.VoiceDetailsOf | app.py:516-558 | not found iff the id is unknown. Details are given iff the auction is running. They carry the auction's id, name, description, leader amount and bid count, the minutes and seconds remaining, and the leader amount plus 50 as the minimum next bid |
| Views.QuotedMinimumIsExact | app.py:542-554 | the minimum next bid quoted by the details is exactly the least amount the bid rules accept |
| Views.Running | app.py:479 | an auction is running when it is active and its deadline is not reached |
| Views.ListingOf | app.py:480-489 | one summary line: the auction's id, name, leader amount, minutes remaining and bid count |
| Views.ActiveListings | app.py:478-490 | lists exactly the running auctions among the visited keys, each once when keys are distinct. Each listing has the auction's name, leader amount, minutes remaining and bid count |
| Views.InsertByMinutes | app.py:493 | inserting adds exactly that listing and nothing else |
| Views.InsertKeepsSorted | app.py:493 | inserting into a list sorted by minutes remaining keeps it sorted; the new listing goes first exactly when it has fewer minutes left than the old first |
| Views.SortByMinutes | app.py:493 | the result is sorted by minutes remaining and is a permutation of the input |
| Views.SpokenLines | app.py:495-499 | the first min(3, n) listings are read out, the i-th numbered i + 1 |
| Views.SummaryOf | app.py:476-505 | the count is the number of running auctions. min(3, count) items are read out, numbered from 1, in listing order |
| Views.SummarySpeaksMostUrgent | app.py:493-499 | the summary's listings are the running auctions, sorted by minutes remaining; no unspoken listing is more urgent than a spoken one |
| Views.SummaryListsOnlyRunningAuctions | app.py:478-499 | every spoken item is a running auction's |
| Views.WinningBids | app.py:751 | keeps exactly the "winning" standing bids |
| Views.OutbidBids | app.py:752 | keeps exactly the "outbid" standing bids |
| Views.StandingsPartition | app.py:750-752 | the winning and outbid bids together are exactly the standing bids |
| Views.VoiceUserStatus | app.py:736-785 | a missing or empty session id, or one not registered, is InvalidSession. A session whose user is missing is a server error. Otherwise the counts are the user's standing bids and history entries, the lists are the user's "winning" and "outbid" standing bids, and together they number the standing bids |
| Views.RegisteredSessionHasStatus | app.py:739-748 | when every session's user exists, any registered non-empty session id gets a status |
| AmountChecks.PassesAsWritten | app.py:624-637 | the two amount checks as written, under IEEE comparison semantics. Its consequences are stated by the three lemmas below |
| AmountChecks.NaNBidPassesAsWritten | app.py:624-637 | as written, a NaN amount passes both amount checks whatever the leader amount |
| AmountChecks.NaNLeaderAdmitsAnyBid | app.py:624-637 | as written, once NaN leads every amount passes; 55000 can be followed by NaN and then by 1 |
| AmountChecks.InfinityBidFreezesAuction | app.py:624-637 | as written, +inf passes over any finite leader amount; after it only NaN passes |
| AmountChecks.CorrectedRulesAgreeOnFiniteAmounts | app.py:605-637 | on a running auction the model's rules agree with the checks as written for every finite amount, and refuse every non-finite one |
| AuctionHouse.SeedWatch | app.py:31-51 | the first seeded auction is active and its bid log is consistent |
| AuctionHouse.SeedMustang | app.py:52-78 | the second seeded auction is active and its bid log is consistent |
| AuctionHouse.SeedSketch | app.py:79-111 | the third seeded auction is active and its bid log is consistent |
| AuctionHouse.SeedProducts | app.py:29-112 | the seed has the three product keys, each auction stored under its own id with a consistent log |
| AuctionHouse.SeedLeadersAreNotLastBidders | app.py:52-111 | in two seeded auctions the leader is not the last bidder |
| AuctionHouse.SeedUsers | app.py:113-122 | the one seeded voice user, with no history and no standing bid |
| AuctionHouse.StoreInvariant | app.py:29-126 | the store's invariant: key orders list their dictionaries' keys once each; bid logs are consistent; one standing bid per auction per user, "winning" exactly when the user leads; no empty user id; every session's user exists |
| AuctionHouse.SeedSatisfiesInvariant | app.py:29-126 | the seeded store satisfies the store invariant |
| AuctionHouse.AcceptedBidKeepsInvariant | app.py:639-682 | applying an accepted bid keeps the store invariant |
| AuctionHouse.ActivityStampKeepsInvariant | app.py:590-594 | stamping a session's last activity keeps the store invariant |
| AuctionHouse.SweepKeepsInvariant | app.py:169-171 | a sweep keeps the store invariant |
| AuctionHouse.SessionStartKeepsInvariant | app.py:416-434 | starting a session keeps the store invariant; in particular the session's user exists |
| AuctionHouse.SessionEndKeepsInvariant | app.py:453-454 | ending a session keeps the store invariant |
| AuctionHouse.NextKeyUnvisited | app.py:169-171 | with distinct keys, the auction the loop reaches next is still the original one, and visiting it expires just that auction |
| AuctionHouse.AnnouncementsOfNextKey | app.py:169-181 | visiting one more auction adds exactly the fan-out of its end when it is due, and nothing otherwise |
| AuctionHouse.Store.Seeded | app.py:29-126 | the store starts with the three seeded auctions in order, exactly the seeded demo user (SeedUsers), no session and no delivery, and satisfies the invariant |
| AuctionHouse.Store.Notify | app.py:188-203 | appends exactly one delivery per registered session, in registration order, and changes nothing else |
| AuctionHouse.Store.PlaceVoiceBid | app.py:564-730 | refused iff CheckVoiceBid refuses, with the same error; a refused bid changes only the stamp. An accepted bid updates the auction and users as above and announces BidEvents to every session. The receipt has the previous amount, the new bid count and the minutes remaining. The invariant is kept |
| AuctionHouse.Store.ApplyBid | app.py:639-722 | an accepted bid updates the auction, the bidder and the displaced leader, and announces the bid's events; the invariant is kept |
| AuctionHouse.Store.RecordOnUsers | app.py:657-682 | the users' side of an accepted bid is exactly UsersAfterBid |
| AuctionHouse.Store.Announce | app.py:676-701 | delivers "outbid" to every session before "new bid" exactly when a leader is displaced |
| AuctionHouse.Store.SweepExpired | app.py:164-181 | one sweep leaves the auctions as Swept and announces each ended auction to every session in dictionary order; only auctions and deliveries change; the invariant is kept |
| AuctionHouse.Store.ExpireInOrder | app.py:169-181 | the loop over the auctions in dictionary order yields Swept and exactly the deliveries of EndedEvents |
| AuctionHouse.Store.VisitKey | app.py:169-181 | one turn of the loop extends the auctions changed in place and the deliveries made by exactly one key |
| AuctionHouse.Store.ExpireStep | app.py:170-181 | one auction is ended and announced if due, and left alone otherwise |
| AuctionHouse.Store.StartSession | app.py:416-434 | the session id is the one requested or a fresh one, and the user is VoiceUserId, created if absent. The session is registered with start and last activity at the current instant. A re-registered id keeps its place. Auctions and deliveries are unchanged |
| AuctionHouse.Store.EndSession | app.py:449-463 | a registered session is removed and returned; an unknown id is not found and changes nothing |
| AuctionHouse.Store.HandleCallWebhook | app.py:331-346 | "call_started" with a session id starts that session, which joins the end of the session order when new. "call_ended" with a session id removes it if registered, keeping the order of the rest. Any other event changes nothing |

## Left out

- HTTP routing, request parsing and JSON responses. The model takes the validated inputs and returns result kinds, not status codes or response bodies.
- The spoken and textual messages, and their `%.0f`/`%.2f` amount formatting. Templates are constructors that carry the amounts and names.
- The webhook POST to the voice platform, its headers, timeout and logging. A delivery is an appended `outbox` entry. An exception for one session does not stop delivery to the rest, so every attempt is recorded.
- The daemon thread, its 30-second sleep and its exception handling. One sweep is modelled, at an instant given as a parameter.
- Concurrency. The source takes no lock, while the request threads and the sweep thread (app.py:206) mutate the same dictionaries. The model runs every handler and every sweep as one atomic step, so it cannot produce interleavings. For example, a bid passes the active and deadline checks (app.py:614-621), the sweep then ends that auction and announces its winner (app.py:169-181), and the bid is applied afterwards (app.py:640-682).
- Reading the environment and the start-up error when the API key is missing.
- `datetime.now()`, `uuid.uuid4()` and `isoformat()`. Instants are microsecond integers; bid and session ids are parameters.
- Exceptions caught by the handlers' generic 500 paths. The one path with a modelled consequence is a session whose user is missing, on the status endpoint.
- Voice bid: the `users[bidder_id]` lookup cannot fail under the store invariant, so the model does not produce that 500 path.
- The pasted bid code inside session start (app.py:218-299), and the 500 response it produces as written. The model's session start follows app.py:416-434 instead (see the notes above).
- The update part of the original bid endpoint, which the source cuts off after app.py:927. Only its validation is modelled (`Bidding.CheckDirectBid`).
- The per-user bids endpoint (app.py:301-319), the health and status counters (app.py:354-412), and `total_spent`, which the source never changes.
- The web front end is not part of this model.
- Views.SortByMinutes: the insertion sort keeps listings with equal minutes in key order, as Python's stable sort does, but that stability is not proved.
- AuctionHouse.Store.PlaceVoiceBid: amounts are real numbers. Python's NaN and infinity are refused as invalid amounts here; see Findings for what the code as written does with them.

## Findings

| source | as written | input that shows it | evidently intended | confidence | as-written member | corrected member |
|---|---|---|---|---|---|---|
| app.py:605-637 | `float(...)` accepts "nan". Every comparison with NaN is false, so neither `<=` nor `<` refuses it and NaN becomes the leader amount. Then any later amount passes both checks | amount "nan" on prod_1 (leader 55000), then amount 1 | non-finite amounts are refused as invalid; the leader amount only rises by at least 50 | not executed | AmountChecks.NaNLeaderAdmitsAnyBid | Bidding.AuctionRules |
| app.py:605-637 | `float(...)` accepts "inf", which passes both checks over any finite leader amount. Then no finite bid can pass, and the auction is frozen | amount "inf" on prod_1, then any finite amount | non-finite amounts are refused as invalid | not executed | AmountChecks.InfinityBidFreezesAuction | Bidding.AuctionRules |
