# Verification of the marketplace backend

This Dafny project models the stateful protocols and the algorithms of a services marketplace: clients
publish requests, providers send offers, an accepted offer becomes a contract, contracts are carried out as
bookings, and around them run chats, reviews, search analytics, workspace insights and data imports. It states
what the code promises over whole runs and over every input, and proves it with Dafny 4.11:

    dafny verify dfyconfig.toml

Collections are maps or sequences of documents, times are integers in milliseconds, ids are fresh naturals.
Services that update stored state are classes whose methods are proved against specification functions; what
those functions promise is proved as lemmas.

| files | subject |
|---|---|
| `Bookings`, `BookingService`, `BookingRules`, `BookingRuns`, `BookingHistory` | the booking calls, what each answers and writes in terms of the stored fields, everything a run of them keeps, and the reschedule chain that `getHistory` walks |
| `Availability`, `SlotOrder`, `BookingSlots` | the slot generator, the order of its answer, and its agreement with the booking calls |
| `Marketplace`, `MarketplaceServices`, `MarketplaceRules`, `MarketplaceRuns`, `AcceptProtocol` | requests, offers and contracts, atomically and with concurrent accepts interleaved operation by operation |
| `WorkspaceCards` | the request card's stage and capabilities against the guards of the request service |
| `Insights` | deduplication and greedy selection of insights |
| `ChatMessages`, `ChatLedger`, `ChatService` | keyset pagination, unread counts and delivery marks |
| `ExpiringStore`, `SearchAnalytics`, `AnalyticsService` | search events deduplicated per time bucket in an expiring store |
| `Apportionment` | largest-remainder apportionment of seeded requests |
| `Ratings`, `ReviewService` | reviews and incrementally rounded averages |
| `CityDedupe`, `CityKeys`, `CityCollisions`, `CityBatch`, `CityImport` | the GeoNames import: deduplication, key assignment, when keys collide, and the script as a whole |

## Findings

Places where the code does something other than one would expect from its comments, configuration or names.
The model follows the code, and each has a lemma.

- The history of a chain longer than 200 bookings is a window, and `currentIndex` is -1 for every booking from
  the 201st on (`BookingHistory.HistoryIsTheChain`); such chains of any length exist
  (`BookingHistory.LongHistoryLosesIndex`).
- The non-atomic cancellation saves the loaded document without a condition. No other write can undo a completion
  (`BookingRuns.CompletionUndoneOnlyByStaleSave`), and this one can (`BookingRuns.StaleSaveRun`); but since it
  is checked 24 hours ahead of the start and a completion waits for the end, the save must come at least 24 hours
  and the length of the booking after its own check (`BookingRuns.CompletionFollowsCheckLate`).
- A reschedule can never use time of the booking it moves, although the overlap check excludes that booking: the
  slots it may choose from are those generated for one UTC day, and none of them overlaps an active booking
  (`BookingSlots.RescheduleLeavesOldInterval`).
- The analytics service would add 120 seconds to the bucket when no lifetime is configured, but the environment
  layer always supplies 1020 seconds, which is too short for longer buckets (`SearchAnalytics.UnsetLifetimeFitsIff`).
- Rounding the average at every rating makes it deaf: after 799 five-star ratings no rating moves it
  (`Ratings.FiveStarsFrozen`).
- In one city import, two cities that do not match can receive the same key, and the unique index then stops the
  import half way. For two cities this happens if and only if no document with a key is found for the second and
  the first of its candidates that no document of another identity holds is the key of the document the first was
  given: one found by its source id while it carried the second one's name, or the other way round
  (`CityCollisions.RunSameKeyIff`, `CityCollisions.TwoCitiesSameKeyIff`, `CityCollisions.OneDocumentSameKeyIff`).
  A run that is not stopped is always right (`CityCollisions.CompletedRunDistinct`), and `CityKeys.Clean` is a
  condition on the database that a caller can check before the import and that rules the case out.
- An import can be stopped at a single city, in exactly two ways (`CityCollisions.RunStopsIff`). The
  first key it may take is held by a stored city of its identity that the lookup does not ask for, for instance
  the same name in a different spelling or country (`CityCollisions.SingleImportConflictsIff`). Or the lookup, which asks for either
  the source id or country and name, returns the city that fits by name while another one has the source id,
  which is then written twice (`CityCollisions.TakenSourceWitness`).
- The booking calls look up slots for the UTC day of the wanted start, and the generator takes the provider's local
  day at UTC midnight. A slot whose local day began later than that is shown to clients and refused when booked
  (`BookingSlots.ShownThenRefused`): in Berlin in winter everything before 01:00, in New York everything
  before 19:00 (`BookingSlots.BookableMinutes`).
- The owner's card of a request whose only contract was cancelled says it is in progress, although the request is
  on the market again: the owner is not shown new offers and cannot unpublish (`WorkspaceCards.CancelledShowsRunning`).
- Every card offers to delete its request, also where the service refuses (`WorkspaceCards.OwnerCapabilities`).
- Loading more messages with a cursor whose id cannot be read skips messages exactly when older ones of the same
  millisecond exist (`ChatMessages.UnreadableIdSkipsTiesIff`).
- The chat service does not compare the two users of a new conversation; with oneself, the unread count is wrong
  from the first message on (`ChatLedger.LedgerHoldsIff`).

## Model

| member | source | states |
|---|---|---|
| BookingService.BookingsService.CreateByClient | src/modules/bookings/bookings.service.ts:59-119 | One call on the stored collection is exactly `Bookings.CreateByClient`: the field checks, the offered slot, the overlap and blackout checks, the unique indexes, the insert, and each refusal with the store unchanged. As every method of the class it leaves a collection reachable by a run reachable. |
| BookingService.BookingsService.Cancel | src/modules/bookings/bookings.service.ts:246-272 | One call is exactly `Bookings.Cancel` on either path, refusals and the silent success on a cancelled booking included. |
| BookingService.BookingsService.CancelIfConfirmed | src/modules/bookings/bookings.service.ts:223-244 | The conditional update and its re-read: only a confirmed booking is written; a cancelled one answers success, a completed one a conflict. |
| BookingService.BookingsService.Reschedule | src/modules/bookings/bookings.service.ts:321-469 | Pre-check and transaction together are `Bookings.Reschedule`; every error leaves the store as it was. |
| BookingService.BookingsService.CommitReschedule | src/modules/bookings/bookings.service.ts:359-462 | The transaction alone, on whatever store it meets: early answer with an existing successor, overlap and blackout refusals, cancel, insert, recovery after a duplicate key, forward link. |
| BookingService.BookingsService.Complete | src/modules/bookings/bookings.service.ts:471-485 | One call is exactly `Bookings.Complete`: who may complete, the silent success on a completed booking, and no completion before the end; a reachable collection stays reachable. |
| BookingService.BookingsService.CompleteIfConfirmed | src/modules/bookings/bookings.service.ts:485-495 | The conditional update and its re-read, on whatever is stored by then: only a confirmed booking is written; a completed one answers success, a cancelled one a conflict. |
| BookingService.BookingsService.GetHistory | src/modules/bookings/bookings.service.ts:498-607 | The fetch and the two bounded walks return `Bookings.GetHistory`; on a reachable collection the call fails only when the booking is missing or not the actor's. |
| BookingService.BookingsService.FindRoot | src/modules/bookings/bookings.service.ts:565-580 | The backward loop over `root` and its visited set is `WalkBack`. |
| BookingService.BookingsService.CollectForward | src/modules/bookings/bookings.service.ts:584-602 | The forward loop over `items`, `cur` and its visited set is `WalkForward`. |
| BookingRuns.RunKeepsInv | src/modules/bookings/bookings.service.ts:59-496 | After any run of whole calls, blackout changes and bare writes of calls that passed their checks at any earlier time: links are mutual and point from older to younger bookings of the same parties, only chain tails are active, active bookings of one provider do not overlap, and no unique index is violated. |
| BookingRuns.ReachableDisjoint | src/modules/bookings/schemas/booking.schema.ts:74-90 | In every store reachable from an empty one, two different active bookings have different requests, and those of one provider are disjoint in time. |
| BookingRuns.RecoveryUnreachable | src/modules/bookings/bookings.service.ts:435-456 | In a store that satisfies the invariant the insert inside the reschedule transaction meets no unique index, so the duplicate-key recovery branch never runs. |
| BookingRuns.RescheduleTxCases | src/modules/bookings/bookings.service.ts:359-462 | The transaction does one of three things: move and link, answer with the successor that exists, or refuse; exactly when each happens. |
| BookingRuns.SecondRescheduleFindsFirst | src/modules/bookings/bookings.service.ts:363-372 | Of two reschedules of one booking that both passed their pre-check, the one that commits second, after any run in between, answers with the first successor and writes nothing. |
| BookingRuns.LinkStableOverRun | src/modules/bookings/bookings.service.ts:460-461 | Once written, a forward link never changes, over any run. |
| BookingRuns.RunPersists | src/modules/bookings/bookings.service.ts:399-427 | No run removes a booking, changes its time, parties, contract or origin, or revives a cancelled one. |
| BookingRuns.CompletionUndoneOnlyByStaleSave | src/modules/bookings/bookings.service.ts:265-271 | A completed booking stays completed under every step except exactly one: the unconditional document save with which a cancellation ends. |
| BookingRuns.CompletionFollowsCheckLate | src/modules/bookings/bookings.service.ts:215-221 | When a booking whose cancellation passed its checks is then completed by a call, after any run in between, at least 24 hours and the length of the booking lie between the checks and the completion; a save that undoes a completion is at least that late. |
| BookingRuns.StaleSaveUndoesCompletion | src/modules/bookings/bookings.service.ts:265-271 | Every booking whose cancellation passed its checks can still be completed from its end on, and the save of that cancellation then cancels it. |
| BookingRuns.StaleSaveRun | src/modules/bookings/bookings.service.ts:246-271 | One run from the empty store in which this happens: booked, cancellation checked, completed after the end, saved late. |
| BookingRuns.CancelWritesIff | src/modules/bookings/bookings.service.ts:203-221 | A cancel call changes the store if and only if an administrator, or the booking's own client or provider in that role, cancels a confirmed booking at least 24 hours before it starts; both paths then do the same. |
| BookingRuns.CompleteWritesIff | src/modules/bookings/bookings.service.ts:471-487 | A complete call changes the store if and only if the provider or an administrator completes a confirmed booking that has ended. |
| BookingRuns.RescheduleWritesIff | src/modules/bookings/bookings.service.ts:287-357 | On a reachable store a reschedule call changes the store if and only if the caller (an administrator, or the booking's own client or provider in that role), status, 24-hour rule, future start, duration, offered slot and free slot all hold. |
| BookingRules.CreateExact | src/modules/bookings/bookings.service.ts:59-119 | From the stored fields: incomplete or past input, or a duration outside 15 to 1440 minutes, is a bad request; an offered start whose time meets no booking that is not cancelled and no active blackout, and whose request and contract are unclaimed, is booked with every field as stated; anything else is a conflict. Every refusal changes nothing. |
| BookingRules.CancelExact | src/modules/bookings/bookings.service.ts:203-272 | From the stored fields: missing, not the caller's to cancel, completed, or less than 24 hours ahead are refused in that order and change nothing; a cancelled booking is left as it is; any other is cancelled, with time, role and reason, and nothing else changes. |
| BookingRules.LateCancelExact | src/modules/bookings/bookings.service.ts:223-271 | The two writes of a cancellation on whatever is stored by then: the document save always cancels, the conditional update only a confirmed booking. |
| BookingRules.CompleteExact | src/modules/bookings/bookings.service.ts:471-495 | From the stored fields: only an administrator or the booking's provider completes, never before the end, never a cancelled booking, and only the status changes. |
| BookingRules.TxExact | src/modules/bookings/bookings.service.ts:359-462 | The reschedule transaction on any reachable store, in fields: refused, answered with the stored successor, or the old booking cancelled and linked and a new one stored with the old one's parties, the new time and a link back. |
| BookingRules.RescheduleExact | src/modules/bookings/bookings.service.ts:321-462 | From the stored fields: the refusals of a reschedule call in order (start, existence, right, status and 24 hours, duration), then a conflict unless the time is offered and clear, then the move, with both bookings as stated and nothing else changed. |
| BookingRules.TxOnAnyStore | src/modules/bookings/bookings.service.ts:435-461 | Also where the unique indexes do reject the new booking: the lowest stored booking that recovers is linked and returned, and without one nothing is written. |
| BookingHistory.ChainShape | src/modules/bookings/bookings.service.ts:399-461 | Every booking lies on a chain from a root without predecessor to a tail without successor; its bookings share request, offer, provider and client, ascend in age, and all but the last are cancelled. |
| BookingHistory.ChainUnique | src/modules/bookings/schemas/booking.schema.ts:113-120 | Every maximal chain through a booking is its one chain, with the booking at its one position. |
| BookingHistory.HistoryIsTheChain | src/modules/bookings/bookings.service.ts:560-607 | On a reachable store `getHistory` returns the chain of the booking asked for, root to tail, when it has at most 200 bookings, and otherwise an exactly stated window of 200; `currentIndex` is the true position for the first 200 bookings of a chain and -1 for every later one. |
| BookingHistory.HistoryOnAnyData | src/modules/bookings/bookings.service.ts:565-602 | On arbitrary link data: a conflict if and only if following the links backward from the booking, or forward from where the backward path ends, meets a booking again within 200 steps; otherwise at most 200 distinct bookings, each linked to the next, from the reported root, stopping only at the bound or where the links end. |
| BookingHistory.LongHistoryLosesIndex | src/modules/bookings/bookings.service.ts:584-607 | For every n over 200 a run of one booking and n - 1 reschedules ends in a booking whose history has 200 items, not including it, and index -1. |
| BookingHistory.MoveExtendsChain | src/modules/bookings/bookings.service.ts:409-461 | A successful reschedule appends one booking to the chain of the old one and leaves every other chain as it was. |
| Availability.GetSlots | src/modules/availability/availability.service.ts:117-209 | The triple loop over days, ranges and minutes, with its early return at 500 slots and its errors, returns `Slots`. |
| SlotOrder.SlotsInOrder | src/modules/availability/availability.service.ts:172-209 | On well-formed schedules the answer is the first 500 of the list that holds, for every day, every range of the first stored schedule of its weekday, wherever that stands in the week, and every grid step in the range, the slot if it ends after now and misses every fetched busy interval: each once, ordered by day, then range, then step, and nothing else. |
| SlotOrder.RangesFound | src/modules/availability/availability.service.ts:180-181 | The schedule of a weekday is the first entry for it, in whatever order the week is stored, and there is none only if no entry is for that day. |
| SlotOrder.SlotsRefused | src/modules/availability/availability.service.ts:123-137 | Without an active schedule the answer is empty; a window that runs backward or over more than 14 days ahead is refused. |
| SlotOrder.MalformedRefused | src/modules/availability/availability.service.ts:183-206 | A malformed range spoils the answer unless the ranges before it have filled it to 500. |
| SlotOrder.HhmmRoundTrip | src/modules/availability/availability.service.ts:239-245 | Every time of day is read back from the way it is written. |
| SlotOrder.HhmmOnlyTimes | src/modules/availability/availability.service.ts:239-245 | Only the 1440 times of day are read; anything else is a bad request. |
| SlotOrder.EarliestWin | src/modules/availability/availability.service.ts:192-205 | Where days have at least 24 hours and the ranges of a day follow each other, the answer ascends in time without overlap, and a slot is left out only if the answer has 500 that all end before it starts. |
| Availability.ValidatedIsWellFormed | src/modules/availability/availability.service.ts:222-245 | A weekly schedule that passed the validation never makes the generator meet a malformed range. |
| Availability.WindowSuffices | src/modules/availability/availability.service.ts:142-170 | For a slot inside the queried window, the fetched busy intervals block it if and only if some busy interval does. |
| Availability.WindowTransparent | src/modules/availability/availability.service.ts:142-209 | When query zone and provider zone agree and days have at least 24 hours, filtering the busy intervals by the window does not change the answer. |
| Availability.IntersectsAny | src/modules/availability/availability.service.ts:211-216 | The loop answers whether some interval overlaps the slot, ends exclusive. |
| BookingSlots.OfferedSlotCanBeBooked | src/modules/bookings/bookings.service.ts:47-119 | A client asking for a slot that the generator offers on the day queried succeeds if and only if no active booking has the request and no booking has the contract. |
| BookingSlots.OfferedMoveSucceeds | src/modules/bookings/bookings.service.ts:321-357 | A permitted reschedule to a slot that the generator offers on the day queried always succeeds. |
| BookingSlots.RescheduleLeavesOldInterval | src/modules/bookings/bookings.service.ts:300-319 | The exclusion of the old booking from the overlap check has no effect: with the one-day query of the call, a reschedule never lands on an interval overlapping the booking it moves. |
| BookingSlots.QueriedScheduleIff | src/modules/bookings/bookings.service.ts:47-57 | A slot of the provider's schedule for a local day is in the schedule a booking call looks at if and only if that local day contains the UTC midnight before the slot, that is, began at or before it; for days whose ranges end with the day. |
| BookingSlots.ShownIsOfferedIff | src/modules/availability/availability.service.ts:176-200 | A free slot of a local day that a client can be shown is among those the booking call accepts only if the day began by the UTC midnight before the slot; and, unless the call's list is cut at 500, whenever it did. |
| BookingSlots.ShownThenRefused | src/modules/bookings/bookings.service.ts:47-57 | A client asking for a shown, free slot whose local day began later than that is refused with a conflict and nothing changes. |
| BookingSlots.BookableMinutes | src/modules/availability/availability.service.ts:176 | Where local days begin w minutes after UTC midnight, a minute m of the day can be booked if and only if w is 0 or w + m is at least 1440. |
| BookingSlots.OfferedIsInside | src/modules/bookings/bookings.service.ts:37-57 | Every slot offered on the one UTC day the booking calls query lies inside that window, so all busy intervals that could block it were fetched. |
| MarketplaceServices.RequestsService.CreatePublic | src/modules/requests/requests.service.ts:242-334 | Refused exactly when the service is unknown, only half a point is given, or no city comes of the input (an id that leads nowhere needs a usable name, no id needs a usable name and a point); otherwise a published request is inserted, with or without an owner, and nothing else changes. |
| MarketplaceServices.RequestsService.CreateForClient | src/modules/requests/requests.service.ts:336-428 | The same refusals; otherwise a draft of the client is inserted and nothing else changes. |
| MarketplaceServices.RequestsService.Duplicate | src/modules/requests/requests.service.ts:898-909 | The owner gets a new draft; others get not found. |
| MarketplaceServices.RequestsService.PublishForClient | src/modules/requests/requests.service.ts:430-463 | Exactly `Marketplace.Publish`: owner, archive and status guards, and the new state. |
| MarketplaceServices.RequestsService.Unpublish | src/modules/requests/requests.service.ts:465-499 | Exactly `Marketplace.Unpublish`, including the refusal once offers exist. |
| MarketplaceServices.RequestsService.Archive | src/modules/requests/requests.service.ts:911-940 | Exactly `Marketplace.Archive`; a second archive changes nothing. |
| MarketplaceServices.RequestsService.Delete | src/modules/requests/requests.service.ts:942-995 | Exactly `Marketplace.Delete`: hard removal, or cancellation kept for seven days when offers, favourites or chats refer to it. |
| MarketplaceServices.OffersService.CreateForProvider | src/modules/offers/offers.service.ts:69-157 | Exactly `Marketplace.CreateOffer`: all refusals in order, and the inserted offer. |
| MarketplaceServices.OffersService.DeleteForProvider | src/modules/offers/offers.service.ts:233-244 | Only the provider of a sent offer removes it. |
| MarketplaceServices.OffersService.AcceptForClient | src/modules/offers/offers.service.ts:399-478 | Lock, accept, find or create the contract, assign it, decline the other sent offers: exactly `Marketplace.Accept`. From a reachable database, success leaves the offer accepted with exactly one contract. |
| MarketplaceServices.OffersService.DeclineForClient | src/modules/offers/offers.service.ts:480-502 | Exactly `Marketplace.Decline`. |
| MarketplaceServices.ContractsService.ConfirmByClient | src/modules/contracts/contracts.service.ts:234-274 | Exactly `Marketplace.Confirm`, with the conditional request update. From a reachable database, success leaves the request assigned to this contract and matched. |
| MarketplaceServices.ContractsService.Cancel | src/modules/contracts/contracts.service.ts:276-307 | Exactly `Marketplace.CancelContract`. From a reachable database, success leaves no request assigned to the contract, and a contract that was live leaves its request published, unmatched and unassigned. |
| MarketplaceServices.ContractsService.Complete | src/modules/contracts/contracts.service.ts:309-339 | Exactly `Marketplace.CompleteContract`. From a reachable database, success leaves the request assigned to this contract and closed. |
| MarketplaceRuns.RunKeepsInv | src/modules/contracts/contracts.service.ts:234-339 | The joint invariant of requests, offers and contracts holds after every run of their fourteen calls. |
| MarketplaceRuns.ReachableNext | src/modules/contracts/contracts.service.ts:234-339 | Every one of the fourteen calls leads from a reachable database to a reachable one, so all that is proved of runs holds after every method of the three services. |
| MarketplaceRules.PublishExact | src/modules/requests/requests.service.ts:430-463 | From the stored fields: the owner publishes a draft, paused or cancelled request that is not archived, which clears its purge date and changes nothing else. |
| MarketplaceRules.UnpublishExact | src/modules/requests/requests.service.ts:465-499 | From the stored fields: the owner pauses a published request that is not archived and has no offer in any state. |
| MarketplaceRules.DeleteExact | src/modules/requests/requests.service.ts:942-995 | From the stored fields: a request without offers or watchers is gone, any other is cancelled and kept for seven days, a matched or closed one refused. |
| MarketplaceRules.EditExact | src/modules/requests/requests.service.ts:818-824 | An edit is refused exactly for archived, matched and closed requests of the owner. |
| MarketplaceRules.PublishTakesBack | src/modules/requests/requests.service.ts:430-499 | Publishing restores the store exactly as it was before an unpublish or a retained delete. |
| MarketplaceRules.OfferExact | src/modules/offers/offers.service.ts:69-157 | From the stored fields: who can offer on what, the refusals in order, and the offer stored. Success if and only if the request is published and someone else's, the provider has not offered on it, and the outside checks pass. |
| MarketplaceRules.DeleteTakesOfferBack | src/modules/offers/offers.service.ts:233-244 | Taking an offer back leaves the store as it was before the offer, but for the id used up. |
| MarketplaceRules.AcceptExact | src/modules/offers/offers.service.ts:399-478 | On a reachable store, from the fields: accept succeeds if and only if offer and request exist, the caller is the request's client, and the offer is accepted already, or open on a request that is published and unmatched; then the request is reserved for the provider, one pending contract stored and assigned, this offer accepted, the other open ones declined, and nothing else changed. |
| MarketplaceRules.DeclineExact | src/modules/offers/offers.service.ts:480-502 | From the stored fields: when an offer can be declined, and that nothing else changes. |
| MarketplaceRules.ConfirmExact | src/modules/contracts/contracts.service.ts:234-274 | On a reachable store, from the fields: only the client confirms, only a pending contract, only if the booking went through; the contract is confirmed, its request matched, nothing else changed. |
| MarketplaceRules.CancelExact | src/modules/contracts/contracts.service.ts:276-307 | On a reachable store, from the fields: either party cancels a contract that is not completed; its request is published again without match or contract, and nothing else changes. |
| MarketplaceRules.CompleteExact | src/modules/contracts/contracts.service.ts:309-339 | On a reachable store, from the fields: either party completes a confirmed contract, its request is closed, and nothing else changes. |
| MarketplaceRules.CancelReopensMarket | src/modules/contracts/contracts.service.ts:297-300 | After a cancelled contract any provider other than the client who has not offered before can offer, and the client can accept that offer at once. |
| MarketplaceRuns.ReachableContracts | src/modules/contracts/contracts.service.ts:252-338 | After every run a request has at most one contract that is not cancelled; it is the assigned one, its provider is the matched one, and the request is matched if and only if one of its contracts is confirmed and closed if and only if one is completed. |
| MarketplaceRuns.ReachableCorrespondence | src/modules/offers/offers.service.ts:233-244 | After every run accepted offers and contracts correspond one to one, and no offer or contract refers to a request that was removed. |
| MarketplaceRuns.AcceptCases | src/modules/offers/offers.service.ts:426-462 | On a reachable store accepting a sent offer always creates its contract; the branch that finds one is never taken. |
| AcceptProtocol.OneAcceptWins | src/modules/offers/offers.service.ts:399-478 | Any number of concurrent accepts, interleaved database operation by database operation: at most one wins a published, unmatched request; without a winner the request, its offers and its contracts are untouched; a finished winner has accepted one offer, created and assigned one contract and declined every other sent offer; and if all calls are done and one was eligible, there is a winner. |
| AcceptProtocol.NobodyWinsShut | src/modules/offers/offers.service.ts:417-436 | Any number of concurrent accepts, interleaved operation by operation: a request that is not published, or is matched already, is won by nobody and left as it was with all its offers and contracts, and every finished call for one of its offers is refused, or told that its offer was accepted before. |
| AcceptProtocol.SoloIsAccept | src/modules/offers/offers.service.ts:399-478 | A call whose operations run without interference ends in the store and with the result of the atomic call. |
| AcceptProtocol.WinnerMatchesAtomic | src/modules/offers/offers.service.ts:417-478 | Whatever the other calls did in between, a finished winner leaves the request and its offers as its own call, run alone, would have. |
| WorkspaceCards.GroupOffers | src/modules/workspace/workspace-request-snapshots.service.ts:134-154 | The loop groups each request's offers in query order. |
| WorkspaceCards.PickLatestByRequest | src/modules/workspace/workspace-requests.support.ts:1124-1136 | For each request the newest row, the last of equally new ones. |
| WorkspaceCards.LoadSnapshot | src/modules/workspace/workspace-request-snapshots.service.ts:134-199 | The two loops deliver all offers of a request and, if it has contracts, the newest, the last of equally new ones. |
| WorkspaceCards.StageExact | src/modules/workspace/workspace-request-cards.builder.ts:37-130 | On a reachable store the stages draft, published and offers received are exactly the three combinations of contract, offers and request status they stand for. |
| WorkspaceCards.CapabilitiesExact | src/modules/workspace/workspace-requests.support.ts:742-773 | For a request that is not archived: `canPublish` if and only if publishing would succeed and there are no offers; `canUnpublish` if and only if unpublishing would succeed; `canEdit` if and only if the edit guard passes and no contract was ever made; `canReviewOffers` likewise. |
| WorkspaceCards.StageWithContract | src/modules/workspace/workspace-request-cards.builder.ts:47-97 | The stage of a request with a contract, from the contract's status, the request's, the booking's and the review. |
| WorkspaceCards.ActionsExact | src/modules/workspace/workspace-requests.support.ts:951-1022 | Which of the actions the card lists at which stage, with or without a contract and someone to chat with. |
| WorkspaceCards.OwnerCapabilities | src/modules/workspace/workspace-requests.support.ts:734-739 | Duplicate is always offered and always succeeds; delete is always offered, and refused exactly for matched and closed requests; restore is publish for a paused or cancelled request. |
| WorkspaceCards.CancelledShowsRunning | src/modules/workspace/workspace-request-cards.builder.ts:85-97 | After its only contract was cancelled a request is shown as in progress, and the card offers neither to review new offers nor to unpublish or edit. |
| WorkspaceCards.ReachableCapabilitiesSound | src/modules/requests/requests.service.ts:818-824 | After every run what the card offers is accepted by the request service, and unpublish is offered exactly when it would succeed. |
| Insights.Dedupe | src/modules/workspace/insights.service.ts:492-503 | One insight per context and audience, the earliest that no other of its key replaces by score or, at equal score, by type; all in descending order of score. |
| Insights.LimitByPriorityAndType | src/modules/workspace/insights.service.ts:505-522 | The loop with its two counters and its early exit is the greedy choice on the list sorted by score. |
| Insights.GreedyDominates | src/modules/workspace/insights.service.ts:511-519 | On a descending list no choice the remaining quotas allow has a larger total than the greedy one. |
| Insights.SelectionOptimal | src/modules/workspace/insights.service.ts:505-522 | For any list and any limit: the selection is itself an admissible choice, and no choice of at most that many with at most one risk and one promotion has a larger total score. |
| Insights.GreedyTakesWhatFits | src/modules/workspace/insights.service.ts:511-519 | The selection is one pass that takes an insight if and only if, when it is reached, a slot is left and, for a promotion or a risk, none of its kind was taken; this determines it. |
| Insights.SortIsStable | src/modules/workspace/insights.service.ts:502 | Sorting keeps insights of equal score in their order. |
| Insights.ReplacesIff | src/modules/workspace/insights.service.ts:492-500 | Of two insights about the same thing the higher score wins, and of equal scores the earlier type in the order opportunity, performance, demand, growth, promotion, risk. |
| Insights.AllowedIff | src/modules/workspace/insights.service.ts:555-561 | An insight is for everyone, or for exactly one kind of viewer. |
| Insights.ScoreNearest | src/modules/workspace/insights.service.ts:467-474 | The score is the whole number nearest to the sum weighted 35, 30, 20 and 15 hundredths, halves up, within 0 and 100. |
| Insights.GetInsights | src/modules/workspace/insights.service.ts:105-139 | The whole call: the fallback appears if and only if no insight is meant for the viewer; otherwise the result is an optimal choice of at most four among the kept insights the viewer may see, each key at most once, in descending order of score. |
| Insights.RoundScore | src/modules/workspace/insights.service.ts:468-474 | The score is the nearest integer, halves up, for weighted scores between 0 and 100, and is clamped outside. |
| Insights.ScoreBetween | src/modules/workspace/insights.service.ts:467-474 | The score is a weighted mean of the four components: it lies between their rounded bounds. |
| ChatMessages.PagesDeliverEverythingOnce | src/modules/chats/chats.service.ts:494-520 | Following `nextCursor` from the first page, for any limit and offset and with newer messages inserted between the requests: n pages hold exactly the first n page sizes of the original messages in descending order of time and id, each once, and the cursor is absent if and only if those are all. |
| ChatMessages.BelowIsSuffix | src/modules/chats/chats.service.ts:127-148 | Below the cursor of a delivered message a store that has grown holds, sorted, exactly the undelivered rest of the original messages. |
| ChatMessages.FirstPageExact | src/modules/chats/chats.service.ts:494-520 | A page without a cursor is a page size of messages, latest first and the larger id first within an instant, past the offset; its cursor is the last one, and absent when nothing follows. |
| ChatMessages.PageSizeExact | src/modules/chats/chats.service.ts:494-496 | 24 messages unless asked otherwise, at least one and at most 100. |
| ChatMessages.CursorPageExact | src/modules/chats/chats.service.ts:115-148 | A cursor is the same as cutting off all that is not before its position and ignoring the offset; a damaged cursor is a bad request, an empty one is like none but for the offset. |
| ChatMessages.UnreadableIdSkipsTiesIff | src/modules/chats/chats.service.ts:134-148 | For any stored messages, limit and offset: a cursor whose id is no object id gives the same answer as with its id if and only if no message of the same instant has a smaller id; it falls back to the time alone and skips those. |
| ChatService.ChatsService.ListMessages | src/modules/chats/chats.service.ts:475-521 | Marks the counterpart's messages delivered, also when the cursor is then refused, and answers with the page. |
| ChatService.ChatsService.SendMessage | src/modules/chats/chats.service.ts:544-619 | Refusals without effect; otherwise the message is stored, the sender's count cleared, the recipient's raised, and both mirrors rewritten. |
| ChatService.ChatsService.MarkAsRead | src/modules/chats/chats.service.ts:621-651 | Clears the reader's count and mirrors it, and marks every message of the other as read. |
| ChatLedger.LedgerExact | src/modules/chats/chats.service.ts:544-651 | After any run between two different users each one's count is the number of messages the other sent since the user last sent or read, it never exceeds the other's messages not marked read, which number exactly those sent since the user last read, and the mirrors agree. |
| ChatLedger.LedgerHoldsIff | src/modules/chats/chats.service.ts:283-299 | The ledger is right after every run if and only if the two users differ; in a conversation with oneself the first message already counts as unread. |
| ChatLedger.SendExact | src/modules/chats/chats.service.ts:544-619 | On any conversation: who may send what, the message stored, and the counts under both names; missing and negative stored counts are read as nothing. |
| ChatLedger.FetchExact | src/modules/chats/chats.service.ts:482-492 | A listing by a participant marks every message of the other that is not read as delivered and changes nothing else. |
| ChatLedger.ReadExact | src/modules/chats/chats.service.ts:621-651 | A reading marks every message of the other as read and clears the reader's count; the other's count stays. |
| ChatLedger.DeliveryExact | src/modules/chats/chats.service.ts:482-651 | After any run between two different users every message sent is stored, is past `sent` if and only if its recipient has listed or read the conversation since, and is `read` if and only if the recipient has read it since. |
| ChatLedger.DeliveryNeverMovesBack | src/modules/chats/chats.service.ts:482-492 | Over any run messages are only added and no delivery mark moves back. |
| ChatLedger.ReaderSeesEveryMessageOnce | src/modules/chats/chats.service.ts:475-521 | A reader paging while both users keep sending, reading and listing still gets every message stored at the first request exactly once. |
| ExpiringStore.MemoryClient.PurgeExpired | src/config/redis.ts:42-50 | Purging a key removes it only when expired and changes nothing any reader can see from then on. |
| ExpiringStore.MemoryClient.Get | src/config/redis.ts:82-85 | Returns the value exactly when it has not expired. |
| ExpiringStore.VisibleForLifetime | src/config/redis.ts:67-73 | A stored value is visible for exactly its lifetime, and storing it affects no other key. |
| ExpiringStore.RedisService.SetIfAbsent | src/infra/redis.service.ts:50-80 | Stores exactly when nothing unexpired is there, says so, and otherwise changes nothing. |
| AnalyticsService.AnalyticsTracker.TrackSearchEvent | src/modules/analytics/analytics.service.ts:210-286 | One event is `SearchAnalytics.Track` on the expiring store and the aggregate rows; the answer says whether it was a duplicate and names its bucket. |
| SearchAnalytics.LongLifetimeCountsDistinct | src/modules/analytics/analytics.service.ts:217-261 | With a lifetime of at least a bucket, after any time-ordered events every row counts exactly the distinct pairs of actor and query among the searches for its criteria whose time, rounded down to a bucket, is the row's. |
| SearchAnalytics.CountsDistinctIff | src/modules/analytics/analytics.service.ts:139-149 | Rows count distinct pairs for all time-ordered event sequences if and only if entries live at least as long as a bucket. |
| SearchAnalytics.SettingsExact | src/modules/analytics/analytics.service.ts:139-149 | The bucket and lifetime in force for every setting. |
| SearchAnalytics.UnsetLifetimeFitsIff | src/config/env.ts:68-69 | With the lifetime left unset the counts are right if and only if the bucket has at most 1020 seconds; the margin of 120 seconds the service would add is never used. |
| Apportionment.BuildCategoryPlan | src/database/seeds/seed-statistics-funnel.ts:72-108 | For any total and weights that sum to the base: exactly `total` entries, each category exactly as often as it counts, in category order. |
| Apportionment.Shares | src/database/seeds/seed-statistics-funnel.ts:75-96 | The counts sum to the total, and each is the whole part of its quota, or one more if the category is favoured. |
| Apportionment.ShareExact | src/database/seeds/seed-statistics-funnel.ts:75-96 | One category's count is `total * weight / base`, rounded down, or one more if it is favoured. |
| Apportionment.RemainderSmall | src/database/seeds/seed-statistics-funnel.ts:84-94 | What the whole parts leave is not negative and less than the number of categories, so the ranking is never gone round twice and no fallback is padded. |
| Apportionment.FavouredRankFirst | src/database/seeds/seed-statistics-funnel.ts:87-88 | Whoever gets one more has a larger fraction than whoever does not, or an equal one and an earlier place. |
| Apportionment.LeastDeviation | src/database/seeds/seed-statistics-funnel.ts:72-96 | No whole-number allocation of the same total, negative shares included, has a smaller summed distance from the exact quotas. |
| Apportionment.WholeIsShared | src/database/seeds/seed-statistics-funnel.ts:72-96 | As many requests as the weights add up to are shared out exactly as the weights say. |
| Apportionment.ShippedHundred | src/database/seeds/seed-statistics-funnel.ts:45-54 | A hundred requests go to the eight categories as 30, 18, 12, 7, 10, 9, 8 and 6. |
| Apportionment.ShippedWeights | src/database/seeds/seed-statistics-funnel.ts:45-54 | The eight shipped weights sum to 100, so all of this holds for them. |
| ReviewService.ProfilesService.ApplyRating | src/modules/providers/providers.service.ts:88-97 | Count plus one and the new mean rounded to two decimals; only this profile changes. |
| ReviewService.ReviewsService.CreateForProvider | src/modules/reviews/reviews.service.ts:179-221 | Refusals in order; otherwise one review of the client and one rating on the client's profile. |
| ReviewService.ReviewsService.CreateForClient | src/modules/reviews/reviews.service.ts:223-265 | Refusals in order; otherwise one review of the provider and one rating on the provider's profile. |
| Ratings.CreateExact | src/modules/reviews/reviews.service.ts:179-265 | From the fields: the provider reviews the client and the client the provider of a completed booking, once for each side, from one to five; every refusal, whom the review is about, and that the other role's profiles are untouched. |
| Ratings.ProfilesFollowReviews | src/modules/reviews/reviews.service.ts:179-265 | After any run every profile is the fold of the reviews kept for its user and role, every rating is between 1 and 5, and no booking has two reviews of one role. |
| Ratings.ReachableProfile | src/modules/users/client-profiles.service.ts:28-37 | After any run `ratingCount` is the number of reviews of that user in that role, and the average is between 1 and 5 and within 0.0025 (n + 1) of their true mean. |
| Ratings.AverageDrift | src/modules/providers/providers.service.ts:90-95 | After n ratings between 1 and 5 the stored average is between 1 and 5 and n times it is within 0.0025 n (n + 1) of their sum. |
| Ratings.UnmovedIff | src/modules/providers/providers.service.ts:93 | A rating leaves a two-decimal average unmoved if and only if it lies at most half a hundredth per rating counted, itself included, below the average, or less than that above. |
| Ratings.FiveStarsFrozen | src/modules/providers/providers.service.ts:93 | After n five-star ratings, n at least 799, the average is 5.00 whatever ratings between 1 and 5 follow. |
| Ratings.FiveStarsMoveBefore | src/modules/providers/providers.service.ts:93 | After n five-star ratings a one-star rating leaves the average at 5.00 if and only if n is at least 799. |
| CityDedupe.Deduplicate | src/scripts/import-geonames-cities.ts:519-549 | The loop over the file is the fold, and lists each identity key once, in the order of first occurrence. |
| CityDedupe.MergeKeepsBetter | src/scripts/import-geonames-cities.ts:319-346 | A merge keeps the row with more people, then the higher feature rank, then the smaller source id, and unites the search names. |
| CityDedupe.MorePeopleWin | src/scripts/import-geonames-cities.ts:319-329 | More people win whatever else differs, and a row without a number loses to every row with one. |
| CityDedupe.RankFollowsImportance | src/scripts/import-geonames-cities.ts:221-246 | The eleven feature codes rank in the listed order, above every other code. |
| CityDedupe.PrecedesAtDifference | src/scripts/import-geonames-cities.ts:336-337 | Of equal people and features the smaller source id wins: the first differing character decides, and a text comes before its continuations. |
| CityDedupe.MergedAliases | src/scripts/import-geonames-cities.ts:340-343 | A merge keeps at most 50 other names, none twice, from the two rows, and all of them if they are fewer. |
| CityDedupe.WinnerAliasesFirst | src/scripts/import-geonames-cities.ts:340 | The better row's own names come first and are never cut. |
| CityDedupe.SameUpToCase | src/scripts/import-geonames-cities.ts:217-219 | Keys are compared letter by letter up to the case of A to Z. |
| CityDedupe.FoldedSurvives | src/scripts/import-geonames-cities.ts:529-541 | A key is present if and only if some row has it; its city carries a row no competitor beats and exactly the search names of all competitors. |
| CityDedupe.OrderIrrelevant | src/scripts/import-geonames-cities.ts:521-541 | Any permutation of the file leaves the same keys and for each the same row and the same set of search names, given different source ids within a key. |
| CityImport.CityImporter.ResolveUniqueImportKey | src/scripts/import-geonames-cities.ts:425-490 | The loop over suffixes with its reservations is `CityKeys.Resolve`, at most the given number of candidates. |
| CityImport.CityImporter.Import | src/scripts/import-geonames-cities.ts:555-625 | The loop over the deduplicated cities is `CityKeys.ImportAll`: lookup, key, upsert under both unique indexes. When a city fails, the cities before it stay stored and nothing else. |
| CityImport.CityImporter.Bootstrap | src/scripts/import-geonames-cities.ts:517-625 | The script: the file is deduplicated, and what is left is imported in order of first occurrence from an empty cache. |
| CityBatch.BatchNamesDiffer | src/scripts/import-geonames-cities.ts:217-219 | In a file of one country no two deduplicated cities have the same name up to case; they share an identity if and only if they carry the same source id. |
| CityBatch.ScriptKeysDistinct | src/scripts/import-geonames-cities.ts:517-615 | For any stored documents and any file of one country whose source ids each belong to one city: if the script is not stopped, every deduplicated city has a key of its own and is stored under it. |
| CityCollisions.RunSameKeyIff | src/scripts/import-geonames-cities.ts:425-490 | For any stored documents, any cities with different identities and any answers of the lookup: the next city of a run receives the key of an earlier one if and only if no document with a key is found for it and the first of its candidates that is free, or was held before the run by a document sharing its identity, is an earlier city's key. The unique index then stops the import at that city. |
| CityCollisions.TwoCitiesSameKeyIff | src/scripts/import-geonames-cities.ts:425-490 | For two cities over any stored documents: the second receives the key of the first if and only if the first was given a keyed document that shares the second one's identity, nothing keyed is found for the second, and that document's key is the first of the second city's candidates not held by a document of another identity. |
| CityCollisions.OneDocumentSameKeyIff | src/scripts/import-geonames-cities.ts:425-457 | With one stored document: two different cities receive the same key if and only if the document is what the lookup asks for the first, shares the second one's identity by source id or name, and carries the second one's key. |
| CityCollisions.StopsIff | src/scripts/import-geonames-cities.ts:425-623 | At any moment of any run, with any document the lookup may have returned: an index stops the next city if and only if it is given a key and either the document found is a GeoNames one and another GeoNames document has the city's source id, or no document with a key is found and the first open candidate is held; and the city is given up if and only if no document with a key is found and none of its candidates is open. |
| CityCollisions.RunStopsIff | src/scripts/import-geonames-cities.ts:555-623 | The same for the next city of an import from an empty cache over any stored documents and any cities with different identities. |
| CityCollisions.FirstImportConflictsIff | src/scripts/import-geonames-cities.ts:555-623 | The same for one city alone, over any stored documents. |
| CityCollisions.SingleImportConflictsIff | src/scripts/import-geonames-cities.ts:415-423 | With one stored city and one to import the index stops the import if and only if the stored one has the wanted key and the same name up to case but is not what the lookup asks for. |
| CityCollisions.TakenSourceWitness | src/scripts/import-geonames-cities.ts:561-571 | Two stored cities, one fitting by source id and one by country and name: when the lookup returns the second, the unique index on source and source id stops the import, although no document has the wanted key. |
| CityCollisions.CompletedRunDistinct | src/scripts/import-geonames-cities.ts:555-615 | Whatever is stored, a run over cities with different identities that is not stopped gives each a key of its own and stores it there. |
| CityCollisions.ReachedKeepsIndexes | src/scripts/import-geonames-cities.ts:596-615 | Stopped or not, the import leaves both unique indexes intact. |
| CityKeys.DecimalRoundTrip | src/scripts/import-geonames-cities.ts:488 | The suffix is the number in decimal without leading zeros. |
| CityKeys.CandidatesDiffer | src/scripts/import-geonames-cities.ts:446-488 | The candidates are the wanted key, then the key with `_2`, `_3` and so on, no two of them equal. |
| CityCollisions.ImportStores | src/scripts/import-geonames-cities.ts:348-395 | What a city that goes through has stored: its name and country under its key; a document of another source keeps its source and source id. |
| CityCollisions.GivenUpIff | src/scripts/import-geonames-cities.ts:483-487 | A city alone is given up if and only if no document with a key is found for it and 200 candidates are all held by documents of other identities. |
| CityKeys.ImportIsPlain | src/scripts/import-geonames-cities.ts:436-488 | On clean input the import with reservations and indexes assigns the same keys and stores the same documents as a plain one that keeps the key of a document found and otherwise takes the first candidate no document holds; no index ever rejects a write. |
| CityKeys.CleanImportKeysDistinct | src/scripts/import-geonames-cities.ts:555-615 | On clean input a run with at most 200 candidates a city ends with all keys different, each city stored under its key, both unique indexes intact, or raises. |
| CityKeys.PlainKeyFails | src/scripts/import-geonames-cities.ts:483-487 | The plain import raises for a city only when every one of its candidates is held by a document. |

## Left out

- CityBatch.ScriptKeysDistinct: the key of a name is an arbitrary non-empty string function of it; transliteration and parsing of file lines are not modelled.
- BookingRuns.RunKeepsInv: covers the four booking calls and blackout changes, not the unguarded booking write in `ContractsService.complete` (`src/modules/contracts/contracts.service.ts:329`), which can revive a cancelled booking.
- BookingService.BookingsService.CreateByClient: its checks and its insert are one step, because the source has no transaction around them and relies on the indexes for the rest.
- Availability.WindowTransparent: assumes equal query and provider zones and days of at least 24 hours; time-zone and daylight-saving arithmetic is an abstract function from day numbers to day starts.
- AcceptProtocol.OneAcceptWins: interleaves accepts only; decline, contract confirmation and contract cancellation are atomic calls because their writes are not guarded by status.
- ChatMessages.PagesDeliverEverythingOnce: a cursor is the record of time and id it encodes; base64 and JSON are not modelled, only their failure cases.
- SearchAnalytics.LongLifetimeCountsDistinct: actor and query are compared themselves, not by salted SHA-256, so hash collisions are left out; trimming and truncating of the event fields happens before the model starts; one call is one step, so two simultaneous calls racing between the read and the write of the in-memory store are not modelled.
- CityDedupe.OrderIrrelevant: speaks of normalized aliases; the plain alias list is cut at 50 entries and does depend on the file order. Case folding is ASCII only.
- Ratings.AverageDrift: exact real arithmetic; floating-point error is left out, as it is for the scores in `Insights` and the quotas in `Apportionment`.
- MarketplaceRuns.RunKeepsInv: `createPendingFromOffer` has no caller and is left out, as are edits of offer terms, which do not touch the lifecycle.
- BookingSlots.QueriedScheduleIff: for days whose ranges end before the next day begins, which all days of 24 hours or more satisfy; `BookingSlots.ShortDayWitness` shows why a shorter day with ranges past its end is excluded.
- MarketplaceServices.RequestsService.CreatePublic: what the catalogue answers is input; a city that is created on the way from its name is not stored in this model.
- MarketplaceServices.RequestsService.Delete: the removal of expired requests by their purge date is a database matter and not modelled.
- ExpiringStore.RedisService.SetIfAbsent: the in-memory client only; a real Redis does the same in one command. Errors that the service logs and swallows are left out.
- Insights.GetInsights: the texts and the rules that produce raw insights are input.
- The migration script declares the contract index of bookings as sparse, the schema as partial on strings; the model follows the schema.
- Unparsable ids and dates, string trimming and the list queries of every service: input plumbing around the modelled calls.
- Authentication, controllers, gateways, mail, uploads, geocoding and statistics texts: no state of the protocols above depends on them.
- Apportionment.BuildCategoryPlan: `buildWeightedDayIndexes` runs the same algorithm on pseudo-random real weights and is not modelled a second time.
- Platform activity histograms and the deadline comparator of the request list: easy, and not an order at all.
