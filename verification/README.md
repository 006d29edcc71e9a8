# Exchange emulator: verified model

A Dafny model of the emulator's hard core, with proofs over every input and every run. It
verifies as one project: `dafny verify dfyconfig.toml`.

**The exchange.** Matching engine, order registry and balance ledger as one state machine.
`Orders` and `Matching` hold price-time matching on values; `OrderBook` is the mutable book, its
queues of shared orders reduced in place, and `Snapshots` the book as published by price level.
`Ledger` and `Registry` hold the arithmetic and the record keeping with the objects that do it in
place. `Exchange` splits the handlers and the book's hooks into steps that any number of clients
can interleave; `ExchangeInv`, `ExchangeSteps`, `ExchangeTrading` and `ExchangeHooks` prove what
every step keeps; `ExchangeRuns`, `ExchangePrices` and `ExchangePriced` draw the conclusions for
whole runs, and `ExchangeFills` ties what is reported of an order and what was moved for it to its trades. `Server` runs the place and cancel handlers on the real objects and shows that each is a
run of the machine, `Sessions` that every sequence of calls is, so the objects inherit the theorems.
`Outsiders` says exactly which orders from another edge keep the invariants, and what the others do.

**The decimals.** `Words`, `Decimal` and `DecimalText` model 128-bit fixed point limb by limb and
specify it by the integers: sum, difference, product and quotient are exact or fail, the 256 by 128
long division is the floor, and the parser returns what the grammar says. `FixedPoint` has the
same truncating operators on integers for the modules that only need amounts.

**The seeder.** `Seeding` is its private record beside the engine as a step machine in which fills
arrive late and others trade at any moment. `SeedingBook` and `SeedingInv` prove that record and
book agree, `SeedingMirror` what a pass achieves, `SeedingDust` how it can fail, and `LiveSeeder` is
the object itself.
`Reference` is the external book it mirrors, with its lazily sorted view.

**The feeds.** `BookDiffs` says what a frame of changed levels is, whatever order it is walked in.
`Level2` is the Coinbase channel with its subscribers and full send buffers, `Level2Losses` what a
subscriber still holds that has missed a frame, `DepthFeed` the Binance stream with its update ids
and the way a client joins it.

**The codecs.** `Bech32` has the checksum as a linear code over GF(2), `Regroup` the 8 to 5 bit
regrouping with its unmasked 64-bit accumulator, `Segwit` addresses, `AddressVectors` published strings
they must give, `Base58` the other alphabet,
`Fix` the message framing. `Digits` and `Numerals` have the positional notation they share.

**The shared maps and the expiry sweep.** `SkipList` is the pointer structure with its towers,
`LockFree` and `LockFreeRuns` the two maps published by compare-and-swap, `Keys` the byte order of
their strings, and `Settle` the settlement sweep.

## How the model is built

* Objects the source changes in place are classes whose methods are proved to compute functions on
  values or steps of a machine; the properties are lemmas about those. Go pointers to orders and
  list nodes are Dafny references, so sharing and in-place change are modelled. A lock-held region
  is one step; where the source takes a lock twice, two steps stand for it and anything may happen
  in between.
* An amount is its raw integer (18 fractional digits). `Decimal` proves when the 128-bit pairs
  behave as those integers.
* Engine ids are a datatype by origin: this edge's `binance:<n>`, the seeder's
  `synth:…#<generation>`, anybody else's.
* Go's maps are walked in any order: every walk takes its next key by an arbitrary choice. Library
  sorts are written out as insertion sorts; the lemmas `Matching.StableSortSorted`,
  `Reference.SortUnique` and `Snapshots.LevelsUnique` show that the result does not depend on that.
* `Order.arrival`, `fills` and `overdrawn` of the exchange's state, the histories in `DepthFeed` and
  `Level2`, the order of effects in `LockFree` and the `steps` a handler returns are bookkeeping for
  statements: no step branches on them. The results a `LockFree` call returns are not: they come from
  the snapshot it loaded or from its swap.

## Where the code and its comments part

* `internal/account/ledger.go:93-94` says a filled order leaves nothing locked. With truncation it
  can leave dust: `ExchangeRuns.FilledBuyLeaves` gives the exact amount and when it is zero,
  `ExchangeRuns.FilledBuyLeavesDust` an example, `ExchangeRuns.Solvency` the bound over all runs.
* `internal/api/binance/rest.go:398-399` says an empty client id is always unique. A client can
  claim the generated name of a later order first: `Registry.EmptyClientIdClash` says exactly when,
  `Registry.EmptyClientIdClashHappens` shows it.
* `internal/emulator/seeder.go:253-255` keeps a stale level within tolerance, so a pass over an
  uncrossed reference can trade with its own order: `SeedingDust.DustSelfTrades` shows the run,
  `SeedingMirror.SelfTradeExactly` has the exact condition.
* `internal/api/coinbase/level2diff.go:14-23` promises that a client never misses a change. It does
  when its snapshot finds the send buffer full: `Level2.LostSnapshotDesyncs`. `Level2.ClientHoldsBaseline`
  is what holds of all that have missed nothing, `Level2Losses.HoldsExactly` says of every subscriber
  exactly when it holds the baseline.
* `internal/optmarket/settle.go:135-140` drains "everything settled", but a pass that has claimed a
  symbol and may yet give it back looks settled: `Settle.DrainCanHitUnsettled` shows the run,
  `Settle.DrainTakesExactly` which symbols a drain takes.
* `internal/api/httpserver/server.go:101-118` (and the gRPC and WebSocket edges alike) takes the client's
  own string as the engine id and any float as the price, while this edge and the seeder rely on their
  id prefixes and on prices above zero. A bid below zero lets a market sell overdraw the account:
  `Outsiders.NegativeBidOverdraws`, for one fill exactly when `Ledger.SellKeepsFreeExactly` says, and
  never in a run without negative limit prices, `ExchangePriced.NonNegativePricesSuffice`.
* A borrowed `binance:<n>` or `synth:` id can do more. Both machines let others send every order that
  is `Harmless`, a condition on the state before the call that the book and the records decide;
  `Outsiders.BorrowedEdgeIdExactly` and `Outsiders.BorrowedSynthIdExactly` prove that no other order
  keeps the machine's invariant, so the hypothesis of the run theorems cannot be widened without
  changing the invariant they rest on. What happens beyond it: a bid resting under a live id
  (`Outsiders.BorrowedEdgeIdHappens`), a bid under a number still to be drawn, which does its harm when
  this edge draws it (`Outsiders.FutureEdgeId`), a sell that trades under a resting bid's id and breaks
  solvency (`Outsiders.BorrowedTradeMints`), an orphan in the seeder's book
  (`Outsiders.BorrowedSynthIdOrphans`) and a fill under a generation still to be minted
  (`Outsiders.FutureSynthId`).
* `internal/api/binance/rest.go:182-188` explains why the update id is read before the book. That does not
  cover a level that moves and moves back between two ticks, since the book read is the live one:
  `DepthFeed.LiveSnapshotDesyncs`, exactly when a client catches up in `DepthFeed.CatchUpExactly`.
* `internal/custody/bitcoin_send.go:146-159` drops the witness version, so addresses of every
  version decode to their program; `Segwit.SegwitProgram` states it with the version existential.
* `internal/reference/book.go:162-171` stores a negative quantity instead of removing the level:
  `Reference.DiffPositiveExactly` says when all stored quantities are positive.

## Model

| member | source | states |
|---|---|---|
| ExchangeRuns.Solvency | internal/account/ledger.go:58-161 | After every interleaving of placing, matching, cancelling, rejecting and transfers, other people trading at any price and under any harmless id: no locked balance is negative, no free balance is unless a market sell was settled at a negative truncated cost, and with nothing in flight each locked balance is what cancelling every open limit order would release, plus 0 to 1 raw unit per limit-buy fill. |
| ExchangePriced.NonNegativePricesSuffice | internal/orderbook/orderbook.go:282-330 | If every limit order from outside names a non-negative price, no market sell is settled at a negative cost, no free balance is ever negative and no record reports a negative quote. |
| ExchangePriced.StepPriced | internal/orderbook/orderbook.go:146-196 | Every step that brings no negative price into a book leaves none in books, owed hooks and records. |
| ExchangeRuns.LimitFillsExact | internal/api/binance/server.go:284-291 | In every reachable state the next limit fill takes exactly its reservation out of locked and moves exactly the quantity of base and the truncated cost of quote, never beyond the order's own price: no clamp engages, unless the account was overdrawn before. |
| ExchangePrices.BuyNeverOverpays | internal/api/binance/registry.go:145-160 | In every reachable state the quote a limit buy reports is at most its executed quantity at its limit, although each fill is truncated on its own. |
| ExchangePrices.FoldFair | internal/api/binance/registry.go:165-180 | Folding a trade keeps that for the records of both sides. |
| ExchangeHooks.FoldTradeAt | internal/api/binance/registry.go:165-180 | The trade hook adds to each record exactly its part of the trade, quantity and truncated cost, and changes no other record. |
| ExchangeRuns.CancelReleasesExactly | internal/api/binance/server.go:295-310 | In every reachable state a cancel releases exactly what was still reserved for the remainder, and the remainder is what left the book. |
| ExchangeRuns.RegistryAgreesWithBook | internal/api/binance/registry.go:165-195 | With nothing in flight a limit record is open exactly when its order rests, and then it rests at the record's price with volume OrigQty − ExecutedQty. |
| ExchangeRuns.NeverOverfilled | internal/api/binance/registry.go:145-160 | Executed, reported and resting quantity of an order never exceed its size. |
| ExchangeFills.ReportIsItsTrades | internal/api/binance/registry.go:145-180 | In every reachable state an order's executed quantity and reported quote are the sums over the trades of the run it took part in, less what its instrument's hooks have still to report. |
| ExchangeFills.LedgerMovedWhatIsReported | internal/api/binance/server.go:234-291 | In every run that overdraws nothing, once nothing is owed to its instrument, the ledger hooks of a limit order have changed the balances by exactly its executed base and its reported quote, and both are the sums over its trades. |
| ExchangeRuns.BooksStayOrdered | internal/orderbook/orderbook.go:268-330 | In every reachable state of the whole exchange every book is uncrossed, in price-time order, with positive volumes. |
| ExchangeRuns.RunKeeps | internal/api/binance/server.go:209-310 | The invariant tying ledger, registry, client-id index, books and pending hooks holds along every run. |
| ExchangeRuns.StepKeeps | internal/api/binance/rest.go:400-459 | Every step of every handler and hook, from any state of the invariant, keeps it. |
| ExchangeRuns.FilledBuyLeaves | internal/account/ledger.go:93-142 | Lock for a whole buy, fill it all in any pieces: what stays locked is exactly the carried fractions, and nothing stays exactly when the fractional parts add up to less than one unit. |
| ExchangeRuns.FilledBuyLeavesDust | internal/account/ledger.go:93-94 | A concrete fully filled order that leaves one raw unit locked. |
| Ledger.SellKeepsFreeExactly | internal/account/ledger.go:97-142 | A market sell fill keeps every non-negative ledger non-negative if and only if its truncated cost is not negative. |
| Ledger.MarketKeepsFree | internal/account/ledger.go:97-142 | Every other market fill, at any price, drives no free balance negative and leaves locked funds alone. |
| Outsiders.NegativeBidOverdraws | internal/api/httpserver/server.go:101-118 | A run from a fresh server in which an outsider bids below zero and a market sell of this edge then overdraws its quote balance. |
| Outsiders.BorrowedEdgeIdExactly | internal/api/httpserver/server.go:101-118 | From every state of the exchange's invariant, an outsider's order of any id, side, price, volume and kind, resting or trading, keeps the invariant if and only if it is harmless, a condition on the state before: its id is not of this edge's kind, or it has no volume or is a market order facing an empty side, or it is under the id of a live market order of that side, trades no more than that one has left (the volume within its limit, reckoned on the queue) and leaves nothing to rest. |
| Outsiders.FutureEdgeId | internal/api/httpserver/server.go:101-118 | A number not yet drawn: on a fresh server an outsider bids under binance:1, everything still agrees, and the first order this edge places rests twice under its one record. |
| Outsiders.BorrowedTradeMints | internal/api/httpserver/server.go:101-118 | A borrowed order that trades: a session, then a sell under the id of this edge's resting bid meets another bid; the account is paid for a sale it never made, and all that was locked stays locked with no order open. |
| Outsiders.BorrowedEdgeIdHappens | internal/api/httpserver/server.go:101-118 | One that rests: a session with one resting bid of this edge, then a second bid under its id, and record and book disagree. |
| Outsiders.BorrowedSynthIdExactly | internal/api/httpserver/server.go:101-118 | From every state of the seeder's invariant with no hook owed, an outsider's order of any id, side, price, volume and kind keeps the invariant if and only if it is harmless, a condition on the state before: its id is not synthetic, or it has no volume or is a market order facing an empty side, or its generation has been minted, the id is not current or was revoked, and the opposite volume within its limit covers it. |
| Outsiders.BorrowedSynthIdAtOnce | internal/api/httpserver/server.go:101-118 | Record and book part at once if and only if the id is current and not revoked or part of the order rests; the rest of the harm comes later. |
| Outsiders.FutureSynthId | internal/api/httpserver/server.go:101-118 | That later harm: from a fresh seeder an order bought out under the id it mints next leaves book and record in agreement, after its hook too, and the placement that mints the id breaks it. |
| Outsiders.BorrowedSynthIdOrphans | internal/api/httpserver/server.go:101-118 | Whatever part of an order is left to rest under an id the seeder never minted is an orphan. |
| ExchangeHooks.LimitFillMoves | internal/account/ledger.go:97-142 | What one limit fill moves asset by asset when its order holds the quantity, with no clamp engaging. |
| ExchangeHooks.FoldKeeps | internal/api/binance/registry.go:165-180 | The registry's trade hook keeps the invariant although the ledger has not seen the fill yet. |
| ExchangeHooks.SettleKeeps | internal/api/binance/server.go:284-291 | The ledger's trade hook keeps it: reservation, release and dust bound move together. |
| ExchangeHooks.CancelFoldKeeps | internal/api/binance/registry.go:184-195 | The registry's cancel hook keeps it while the reservation is still held. |
| ExchangeHooks.CancelUnlockKeeps | internal/api/binance/server.go:295-310 | The ledger's cancel hook keeps it and releases the whole reservation. |
| ExchangeTrading.PlaceKeeps | internal/api/binance/rest.go:416-441 | Sending a funded order to the book keeps it: what was reserved is now split between resting volume and owed hooks. |
| ExchangeTrading.OutsideKeeps | internal/orderbook/orderbook.go:146-196 | Other people's orders, under ids of their own or harmless under one of this edge's, keep it. |
| ExchangeTrading.CancelKeeps | internal/orderbook/orderbook.go:199-215 | Taking an order off the book, by anybody, keeps it. |
| ExchangeTrading.EventsOfQty | internal/api/binance/server.go:234-256 | The hooks owed for a list of trades fold and settle exactly the traded quantity of each order. |
| ExchangeSteps.ClaimKeeps | internal/api/binance/registry.go:104-141 | Claiming a client id and recording the order keeps it. |
| ExchangeSteps.ReserveKeeps | internal/api/binance/rest.go:400-426 | Locking the funds of a limit order, or failing to, keeps it. |
| ExchangeSteps.RollBackKeeps | internal/api/binance/rest.go:448-459 | Removing the record of a rejected placement keeps it with the refund still owed. |
| ExchangeSteps.RefundedKeeps | internal/api/binance/rest.go:448-459 | Releasing that reservation returns exactly what was locked. |
| Matching.MatchConsumesFront | internal/orderbook/orderbook.go:282-330 | A match takes the queue strictly from the front, each trade at the maker's price, all but the last maker exhausted, the rest untouched, volume conserved, stopping only when used up or out of price. |
| Matching.MatchConservesMakers | internal/orderbook/orderbook.go:282-330 | What each maker loses is exactly what the trades report for it. |
| Matching.MatchAdditive | internal/orderbook/orderbook.go:282-330 | Matching a+b at once or a then b leaves the same queue, the same volume per maker and the same total notional. |
| Matching.IocAdditive | internal/orderbook/orderbook.go:181-196 | The same for immediate-or-cancel calls on a book. |
| Matching.IocIsPlaceThenCancel | internal/orderbook/orderbook.go:181-215 | An immediate-or-cancel order gives the same trades and book as placing it under a fresh id and cancelling the remainder. |
| Matching.RunKeepsBookOk | internal/orderbook/orderbook.go:146-215 | After any run of book calls the book is uncrossed, price-time ordered, positive. |
| Matching.AddLimitKeepsBookOk | internal/orderbook/orderbook.go:146-168 | A limit order that rests does not cross and sits behind equal prices. |
| Matching.LastTradeExact | internal/orderbook/orderbook.go:316-321 | The published last trade is the one with the last maker taken, at its price; without a trade it stays. |
| Matching.CallTakes | internal/orderbook/orderbook.go:282-330 | On an ordered book a call trades exactly the smaller of its volume and the resting volume within its limit, wherever that stands in the queue, and leaves the rest. |
| Matching.NoTradeThrough | internal/orderbook/orderbook.go:282-330 | After any run, an order never trades while a better-priced or equal-priced earlier one on its side still rests. |
| Matching.StableSortSorted | internal/orderbook/orderbook.go:268-280 | The stable sort leaves an ordered queue as it is, so re-sorting after an append is one insertion. |
| OrderBook.InstrumentBook.ConsumeFront | internal/orderbook/orderbook.go:282-325 | The matching loop reduces the shared orders in place exactly as the value-level match says, from the front. |
| OrderBook.InstrumentBook.MatchLocked | internal/orderbook/orderbook.go:282-330 | The in-place match leaves the queue, the trades, the remainder and the last trade of the value-level match and touches no other order. |
| OrderBook.InstrumentBook.EnqueueLocked | internal/orderbook/orderbook.go:268-280 | Appending and stable-sorting the pointers is queueing the value. |
| OrderBook.InstrumentBook.AddLimitOrder | internal/orderbook/orderbook.go:146-168 | The whole call on the mutable book is the function the order theorems are about. |
| OrderBook.InstrumentBook.ExecuteLimitIoc | internal/orderbook/orderbook.go:181-196 | Likewise, discarding the remainder. |
| OrderBook.InstrumentBook.CancelOrder | internal/orderbook/orderbook.go:199-215 | Removes the first order with the id, bids before asks, and returns it; otherwise changes nothing. |
| OrderBook.RemoveOrder | internal/orderbook/orderbook.go:332-343 | Finds the first order with the id and cuts exactly it out. |
| OrderBook.InstrumentBook.Snapshot | internal/orderbook/orderbook.go:243-266 | The published view is the aggregate of both sides with best prices zero for an empty side. |
| OrderBook.AggregateLevels | internal/orderbook/orderbook.go:345-365 | The three loops give one level per price in use, best first, with all the volume there. |
| Snapshots.SnapshotPredictsMatch | internal/orderbook/orderbook.go:345-365 | Aggregation and matching commute: sweeping an order out of the published levels gives the levels, the remainder and the cost that matching it against the queue gives. |
| Snapshots.LevelsUnique | internal/orderbook/orderbook.go:345-365 | Only one level list belongs to a queue, however the price map is walked. |
| Snapshots.TotalsAgree | internal/orderbook/orderbook.go:345-365 | The levels add up to the whole resting volume. |
| Snapshots.PublishedUncrossed | internal/orderbook/orderbook.go:243-266 | The two published sides of a reachable book never meet and start at the prices of the front orders. |
| Ledger.LimitBuyExact | internal/account/ledger.go:97-142 | A limit buy with its reservation locked moves reservation, improvement and quantity exactly. |
| Ledger.LimitSellExact | internal/account/ledger.go:97-142 | A limit sell likewise. |
| Ledger.MarketNeverMints | internal/account/ledger.go:97-142 | A market fill never makes a balance negative and credits at most the share of the cost that was paid, the full quantity when all of it was. |
| Ledger.MarketBuyExact | internal/account/ledger.go:106-119 | At any price a market buy pays exactly the smaller of cost and free quote and is credited the whole quantity for the whole cost, otherwise its share from both sides within the truncation; no other balance moves. |
| Ledger.MarketSellExact | internal/account/ledger.go:120-128 | A market sell gives up exactly the smaller of quantity and free base and is paid its truncated cost. |
| Ledger.LimitFillExact | internal/account/ledger.go:129-142 | A limit fill of any ledger, covered or not: releases at most what is locked, pays at most what is then free, and credits the other asset in full. |
| Ledger.LockExact | internal/account/ledger.go:58-71 | Refused exactly when a positive amount is not free, and then nothing moves; otherwise the amount changes columns. |
| Ledger.UnlockExact | internal/account/ledger.go:75-87 | Gives back the amount or all that is locked. |
| Ledger.DebitExact | internal/account/ledger.go:165-177 | Taken from free exactly when it is there, refused without effect otherwise. |
| Ledger.CreditExact | internal/account/ledger.go:180-187 | A positive amount arrives in free, and nothing else moves. |
| Ledger.BurnExact | internal/account/ledger.go:193-204 | Takes the amount or all that is free. |
| Ledger.TransferUndone | internal/account/ledger.go:58-87 | A deposit of what was withdrawn, or an unlock of what was locked, restores every balance. |
| Ledger.OwnTradeConserves | internal/account/ledger.go:97-142 | When both sides of a trade are the account's own limit orders every total is unchanged. |
| Ledger.Account.Lock | internal/account/ledger.go:58-71 | Refuses a negative or uncovered amount and otherwise moves it from free to locked. |
| Ledger.Account.UnlockUpTo | internal/account/ledger.go:75-87 | The object's release, clamp included, is the specified one and touches no other asset. |
| Ledger.Account.ReleaseUpTo | internal/account/ledger.go:145-152 | Dropping locked funds, clamped at zero, is the specified function. |
| Ledger.Account.DebitUpTo | internal/account/ledger.go:155-161 | Taking free funds, clamped at zero, is the specified function. |
| Ledger.Account.Settle | internal/account/ledger.go:97-142 | The in-place settlement of a fill is the function the exactness lemmas speak of. |
| Ledger.Account.SettleFromFree | internal/account/ledger.go:103-130 | The market branch, partial payment included, is the function MarketBuyExact and MarketSellExact speak of. |
| Ledger.Account.Withdraw | internal/account/ledger.go:165-177 | Refuses what free does not cover and otherwise takes exactly it. |
| Ledger.Account.Deposit | internal/account/ledger.go:180-187 | Credits positive amounts only. |
| Ledger.Account.BurnUpTo | internal/account/ledger.go:193-204 | Burns at most what is free. |
| Registry.RegisterThenDrop | internal/api/binance/registry.go:108-141 | Rolling back a just-claimed order restores records and client-id index exactly. |
| Registry.EmptyClientIdClash | internal/api/binance/registry.go:104-141 | An order without client id is refused exactly when another record carries its generated name, not generated for itself. |
| Registry.EmptyClientIdClashHappens | internal/api/binance/registry.go:104-141 | An input for which that happens. |
| Registry.OrderRegistry.RecordUnique | internal/api/binance/registry.go:104-141 | Refuses exactly when the client id is known, changing nothing; otherwise enters one new record in all three indexes. |
| Registry.OrderRegistry.OnTrade | internal/api/binance/registry.go:165-180 | Applies the fill in place to the records of both sides and to no other. |
| Registry.OrderRegistry.OnCancel | internal/api/binance/registry.go:184-195 | Marks the record canceled unless filled; ignores other people's orders. |
| Registry.OrderRegistry.MarkCanceled | internal/api/binance/registry.go:200-207 | The same by order number. |
| Registry.OrderRegistry.Remove | internal/api/binance/registry.go:260-270 | Deletes the record from all three indexes, which keep agreeing. |
| Registry.OrderRecord.Fill | internal/api/binance/registry.go:145-160 | Adds quantity and truncated cost and sets the status by whether the order is complete. |
| Server.PlaceAloneIsRun | internal/api/binance/rest.go:393-459 | A place request, with its hooks, is a run of the exchange machine in every branch: duplicate, unfunded, refused by the engine, placed. |
| Server.CancelAloneIsRun | internal/api/binance/rest.go:498-554 | A cancel request likewise, whether or not the order still rests. |
| Server.PlaceAloneDesk | internal/api/binance/rest.go:393-459 | From every state, what that run leaves in records, ids, balances and book is what the handler object computes. |
| Server.CancelAloneDesk | internal/api/binance/rest.go:498-554 | The same for the cancel handler. |
| Server.EdgeServer.HandlePlaceOrder | internal/api/binance/rest.go:393-459 | Claim, lock, place and roll back on the real registry, ledger and book end in exactly the specified state and reply, ready for the next request. |
| Server.EdgeServer.HandleCancelOrder | internal/api/binance/rest.go:498-554 | The cancel path on the real objects ends in exactly the specified state and reply. |
| Server.PlaceReplies | internal/api/binance/rest.go:400-441 | Which answer a place request gets, from the state before: duplicate exactly when the client id is known, then insufficient exactly when the funds needed are not free, then refused, then accepted. |
| Server.RejectedLeavesNoTrace | internal/api/binance/rest.go:400-441 | A request not accepted leaves no record, client id, funds or order behind, only its number is used. |
| Server.AcceptedRests | internal/api/binance/rest.go:400-441 | An accepted limit order that meets nobody rests on its side at its price with its quantity, its record says the same, and exactly what it needs is locked. |
| Server.CancelReplies | internal/api/binance/rest.go:498-554 | Which answer a cancel request gets: cancelled exactly when a known order rests, otherwise already done or unknown by its record, and then nothing changes. |
| Server.CancelCloses | internal/api/binance/rest.go:498-554 | A cancelled order is off the book and its record is closed. |
| Exchange.SymbolSplits | internal/api/binance/rest.go:139-146 | A symbol is its base, a hyphen and its quote; one without a hyphen is its own base. |
| Sessions.SessionIsRun | internal/api/binance/rest.go:393-554 | Any sequence of place and cancel requests and of other people's orders, handled one after the other from any reached state, is one longer run of the exchange machine and leaves its state. |
| Sessions.Serve | internal/api/binance/rest.go:393-554 | Served on the real objects such a session leaves them solvent, with registry and book in agreement and the book in order. |
| Sessions.FreshSession | internal/api/binance/server.go:143-198 | The same from a newly built server over a funded ledger; with non-negative outside prices no balance is ever negative. |
| Sessions.ReachedIsSound | internal/account/ledger.go:58-161 | What the run theorems say of the values the objects hold. |
| Server.EdgeServer.FireTrades | internal/api/binance/server.go:209-279 | Firing the hooks of the trades on registry and ledger, in registration order, is processing the owed events. |
| Server.EdgeServer.FireCancel | internal/api/binance/server.go:270-279 | The cancel hooks likewise, registry before ledger. |
| Decimal.Add | pkg/decimal/decimal.go:244-252 | The exact sum of the two integers, or overflow exactly when it lies outside [−2^127, 2^127). |
| Decimal.Sub | pkg/decimal/decimal.go:255-263 | The exact difference, or overflow exactly when it lies outside. |
| Decimal.Mul | pkg/decimal/decimal.go:271-282 | The product divided by 10^18 and truncated toward zero, or overflow exactly when that lies outside. |
| Decimal.Div | pkg/decimal/decimal.go:293-306 | The scaled quotient truncated toward zero, failing exactly on a zero divisor or a result outside. |
| Decimal.Div256By128 | pkg/decimal/decimal.go:436-456 | The bitwise long division returns floor(n/d) exactly when that fits 128 bits and reports failure otherwise, remainder below divisor throughout and the wrapping subtract exact. |
| Decimal.Div256By64 | pkg/decimal/decimal.go:462-469 | Four chained 128 by 64 divisions give the floor of the 256-bit quotient. |
| Decimal.Mul128To256 | pkg/decimal/decimal.go:397-418 | The four limbs with their carries are the exact 256-bit product. |
| Decimal.FromMag | pkg/decimal/decimal.go:473-488 | Reassembles sign and magnitude, −2^127 included, or reports overflow exactly when it does not fit. |
| Decimal.AbsMag | pkg/decimal/decimal.go:385-393 | Magnitude and sign of every value, −2^127 included. |
| Decimal.Cmp | pkg/decimal/decimal.go:342-356 | The order of the integers. |
| Decimal.Sign | pkg/decimal/decimal.go:328-336 | The sign of the integer. |
| Decimal.RawInjective | pkg/decimal/decimal.go:40-45 | Equal integers have equal words, so map keys by words are keys by value. |
| DecimalText.Parse | pkg/decimal/decimal.go:98-153 | Returns for every string what the grammar says: value truncated at 18 digits, malformed or overflow. |
| DecimalText.MeaningUnique | pkg/decimal/decimal.go:98-153 | The grammar gives each string one meaning. |
| DecimalText.ReadsPrinted | pkg/decimal/decimal.go:170-196 | For every value and precision the rendering reads back as the value truncated toward zero to that many digits. |
| DecimalText.RenderingShape | pkg/decimal/decimal.go:170-196 | The text is a minus sign exactly for negative values, the whole part without a leading zero and, behind a point, exactly the asked digits of the fraction up to 18. |
| DecimalText.FullPrecisionRoundTrip | pkg/decimal/decimal.go:170-196 | Parsing the 18-digit rendering returns every value unchanged, negatives above −1 and −2^127 included. |
| DecimalText.PrintInjective | pkg/decimal/decimal.go:170-196 | Different values have different 18-digit renderings. |
| DecimalText.RenderingHasPoint | pkg/decimal/decimal.go:170-196 | A rendering has a decimal point exactly when the clamped precision is positive. |
| DecimalText.KnownErrors | pkg/decimal/decimal_test.go:50-58 | The strings the repository wants refused are malformed. |
| DecimalText.KnownReadings | pkg/decimal/decimal.go:98-165 | Either sign and a trailing point are read. |
| SeedingInv.TrackedMatchesBook | internal/emulator/seeder.go:183-337 | In every interleaving, the resting volume of each tracked level's current order is the tracked volume less the fills not folded yet. |
| SeedingInv.NoOrphans | internal/emulator/seeder.go:183-306 | Every synthetic order in the book is the current one of its level and rests at its level's side and price. |
| SeedingInv.RunKeeps | internal/emulator/seeder.go:125-160 | Accounting, generation freshness and queue shape hold along every run. |
| SeedingInv.StepKeeps | internal/emulator/seeder.go:183-337 | Each seeder phase, hook or harmless order of an outsider keeps them. |
| SeedingInv.NewIdFresh | internal/emulator/seeder.go:125-128 | A new generation's id is in no queue, buffer or record. |
| SeedingMirror.PassNeverSelfTrades | internal/emulator/seeder.go:253-304 | With an uncrossed reference and no stale dust no placement of the pass meets a synthetic order, whatever others do meanwhile. |
| SeedingMirror.SelfTradeExactly | internal/emulator/seeder.go:253-304 | A placement trades with a synthetic order exactly when one of an unwanted level is still within its reach. |
| SeedingDust.DustSelfTrades | internal/emulator/seeder.go:253-255 | A run from an empty book whose second pass, over an uncrossed reference, trades with its own leftover. |
| SeedingMirror.PlacementTrades | internal/orderbook/orderbook.go:282-330 | A placement trades with exactly the orders within its limit and reach. |
| SeedingMirror.ExactPassMirrors | internal/emulator/seeder.go:230-304 | After a full pass every reference level is tracked within tolerance, and the tracked levels are exactly the reference's if and only if there was no stale dust. |
| SeedingMirror.SecondPassIdle | internal/emulator/seeder.go:246-258 | A second full pass finds nothing to do. |
| SeedingMirror.PartialPassMoves | internal/emulator/seeder.go:220-260 | A partial pass leaves each reference level at its volume plus what the factor makes of the distance, up to the tolerance. |
| SeedingMirror.StaleDrained | internal/emulator/seeder.go:236-247 | A level that has left the reference is drained at once in every pass, down to dust. |
| SeedingMirror.PartialPassApproaches | internal/emulator/seeder.go:230-304 | A partial pass never moves a level away from its reference volume. |
| LiveSeeder.Seeder.Converge | internal/emulator/seeder.go:183-306 | The whole pass on the object is a run of the machine; it skips exactly when the reference is missing or crossed. An exact one leaves every positive level among the reference's best `depth` of either side tracked at its side and price within the tolerance of its quantity, and nothing else but dust that was there; any one leaves the specified records, counts the levels it placed, resized and cancelled, and alone and without stale dust trades with nobody. |
| LiveSeeder.Seeder.FoldFills | internal/emulator/seeder.go:312-337 | Folding through an index by id in any order is subtracting each level's own buffered fills and dropping what is used up. |
| LiveSeeder.Seeder.OnTrade | internal/emulator/seeder.go:147-160 | Buffers both sides of a trade under their ids. |
| LiveSeeder.Seeder.Clear | internal/emulator/seeder.go:348-358 | Afterwards nothing is tracked and no synthetic order rests. |
| LiveSeeder.DepthApart | internal/emulator/seeder.go:197-215 | The top levels of an uncrossed reference lie apart, which is what the self-trade theorem needs. |
| LiveSeeder.RefVolumesAt | internal/emulator/seeder.go:194-207 | Of levels with distinct prices each is wanted on its side, at its price, with its quantity, and nothing else is wanted. |
| Reference.RefBook.Apply | internal/reference/book.go:109-159 | After a snapshot a price is in a side exactly when some entry for it is positive, with the last such entry as its level; after a diff each price's last entry decides, zero removing it; a diff before any snapshot is refused and counted; the cached view stays the sort of the maps or is marked stale. |
| Reference.RefBook.Rebuild | internal/reference/book.go:185-197 | The cached view becomes the sort of the level maps and crossings are counted once. |
| Reference.RefBook.Depth | internal/reference/read.go:135-149 | The lazily cached depth keeps exactly the levels that fewer than n others beat, best first, all of them for n <= 0. |
| Reference.RefBook.Crossed | internal/reference/read.go:48-53 | True exactly when some bid is at or above some ask. |
| Reference.RefBook.BestBidAsk | internal/reference/read.go:102-110 | The highest bid and the lowest ask, present exactly when both sides are. |
| Reference.SortedLevels | internal/reference/book.go:199-211 | Sorting a map walked in any order gives its unique best-first list. |
| Reference.SortUnique | internal/reference/book.go:199-211 | That list is unique. |
| Reference.CrossedExactly | internal/reference/read.go:48-53 | Comparing the two tops of the view is comparing all levels. |
| Reference.ClipKeepsBest | internal/reference/read.go:142-149 | No level left out beats one kept. |
| Reference.ClipIsTop | internal/reference/read.go:142-149 | Clipping keeps exactly the levels beaten by fewer than n others, and the smaller of n and all of them. |
| Reference.DiffLastWins | internal/reference/book.go:162-171 | Of several entries for a price in one diff the last decides. |
| Reference.SnapshotLastWins | internal/reference/book.go:118-130 | A snapshot's side has exactly the prices with a positive entry, each with the last such entry. |
| Reference.DiffPositiveExactly | internal/reference/book.go:162-171 | All stored quantities stay positive exactly when no deciding entry is negative. |
| SkipList.SkipListMap.Set | internal/concurrency/dict/skiplist.go:48-80 | For any drawn level, rewiring the towers keeps every chain a strictly sorted sub-chain of the one below and updates exactly one key of the map. |
| SkipList.SkipListMap.Delete | internal/concurrency/dict/skiplist.go:102-131 | Unlinks the node at every level and shrinks the height, removing exactly that key; false exactly when absent. |
| SkipList.SkipListMap.Get | internal/concurrency/dict/skiplist.go:83-99 | The descent finds exactly the stored value. |
| SkipList.SkipListMap.Range | internal/concurrency/dict/skiplist.go:147-157 | Visits keys in ascending order, each once, until the callback stops it; all of them if it never does. |
| SkipList.SkipListMap.Len | internal/concurrency/dict/skiplist.go:134-144 | The length of the bottom chain is the number of keys. |
| SkipList.SkipListMap.Descend | internal/concurrency/dict/skiplist.go:48-63 | The search returns the last node before the key at every level. |
| SkipList.SkipListMap.PointerSkips | internal/concurrency/dict/skiplist.go:16-35 | A forward pointer of level l leads to the next node tall enough, skipping only lower ones. |
| SkipList.SkipListMap.RandomLevel | internal/concurrency/dict/skiplist.go:39-45 | Any draw lies between 1 and the maximum. |
| SkipList.NextInserted | internal/concurrency/dict/skiplist.go:64-79 | What every level's successor becomes when a node is spliced in. |
| Keys.LessTotal | internal/concurrency/dict/skiplist.go:55-57 | Go's string order is total. |
| Keys.LessTransitive | internal/concurrency/dict/skiplist.go:55-57 | And transitive. |
| Keys.LessMeans | internal/concurrency/dict/skiplist.go:85-92 | The order compares at the first difference, a prefix before what extends it. |
| Level2.ClientHoldsBaseline | internal/api/coinbase/level2diff.go:47-122 | In every interleaving of ticks, subscriptions, losses and disconnects, a subscriber that has missed no frame since its snapshot holds exactly the server's baseline, whatever order the updates come in within a frame. |
| Level2Losses.HoldsExactly | internal/api/coinbase/level2diff.go:47-122 | In every reachable state a subscriber holds the baseline if and only if it has missed nothing since its snapshot, or its book when it last missed a frame agrees with the baseline on every level no frame since then mentions. |
| Level2Losses.LossRun | internal/api/coinbase/ws.go:379-429 | Along every run each subscriber that missed a frame has every level it has heard of since right and the others as they were. |
| Level2.LostSnapshotDesyncs | internal/api/coinbase/ws.go:411-429 | A subscriber whose snapshot did not fit is registered all the same and then holds a book the server never had. |
| Level2.RunKeeps | internal/api/coinbase/ws.go:379-429 | The agreement of every such subscriber holds along every run. |
| Level2.Feed.BroadcastLevel2 | internal/api/coinbase/ws.go:379-402 | A tick on the object is the machine's tick: diff, advance the baseline, enqueue to subscribers, close the full ones. |
| Level2.Feed.SubscribeLevel2 | internal/api/coinbase/ws.go:411-429 | A subscription on the object is the machine's: snapshot from the baseline, enqueue, register. |
| Level2.Feed.DiffLocked | internal/api/coinbase/level2diff.go:80-98 | The updates are a diff of the old baseline to the new book; the baseline advances exactly when something changed, and is seeded silently. |
| Level2.Feed.BookLocked | internal/api/coinbase/level2diff.go:47-54 | The baseline, seeded from the given book when there is none. |
| Level2.Feed.TrySend | internal/api/coinbase/broadcaster.go:68-80 | Enqueues unless closed or full. |
| Level2.Feed.Drain | internal/api/coinbase/ws.go:147-174 | The write pump taking a frame frees one place of that connection's buffer and no other. |
| Level2.Feed.PublishMarket | internal/api/coinbase/broadcaster.go:179-195 | Every subscriber with room gets the frame once, the others are closed. |
| Level2.Feed.UnsubscribeMarket | internal/api/coinbase/broadcaster.go:130-143 | Leaves the product, dropping the entry of an empty set. |
| Level2.Feed.Remove | internal/api/coinbase/broadcaster.go:162-174 | A connection that has gone is in no market. |
| Level2.MapUpdates | internal/api/coinbase/level2diff.go:101-106 | Every level of the map once, in any order. |
| BookDiffs.DiffReaches | internal/api/coinbase/level2diff.go:110-122 | Folding a diff into the old book gives the new one, in whatever order the maps were walked. |
| BookDiffs.ListingReaches | internal/api/coinbase/level2diff.go:60-66 | Folding a full listing into nothing gives the book. |
| BookDiffs.EmptyDiff | internal/api/coinbase/level2diff.go:94-96 | A diff is empty exactly when nothing changed. |
| BookDiffs.SidesDiff | internal/api/coinbase/level2diff.go:91-93 | Two side diffs in sequence are a diff of the whole book. |
| BookDiffs.DiffSide | internal/api/coinbase/level2diff.go:110-122 | The two loops produce a diff of one side: changes with their new quantity, removals with "0". |
| BookDiffs.LevelMapWire | internal/api/coinbase/level2diff.go:37-43 | Rendered levels never carry the removal mark. |
| BookDiffs.LevelMapAt | internal/api/coinbase/level2diff.go:37-43 | Each rendered price carries the rendered quantity of the last level that renders to it. |
| BookDiffs.RenderLevels | internal/api/binance/depthdiff.go:68-78 | The loop builds the price map in which a later level of the same rendering wins. |
| DepthFeed.ClientCatchesUp | internal/api/binance/rest.go:182-199 | A client that reads the id first, starts from any baseline seeded at or after it and applies every diff beyond the id, including those already reflected, ends at the current baseline. |
| DepthFeed.CatchUpExactly | internal/api/binance/depthdiff.go:103-125 | For any starting book this happens exactly when it already agrees on every level no later diff touches. |
| DepthFeed.LateIdDesyncs | internal/api/binance/rest.go:182-199 | Reading the id after the snapshot can lose a change for good. |
| DepthFeed.LiveSnapshotDesyncs | internal/api/binance/rest.go:182-199 | A snapshot of the live book between two ticks that saw a level move and move back leaves the client wrong, and no push corrects it. |
| DepthFeed.PushesOnChange | internal/api/binance/depthdiff.go:103-125 | A push happens exactly when the book changed, with the id one above the last. |
| DepthFeed.RunNumbers | internal/api/binance/depthdiff.go:103-125 | Along every run push k carries the k-th id and leads from baseline k to baseline k+1. |
| DepthFeed.DepthDiffer.Diff | internal/api/binance/depthdiff.go:103-125 | The object's diff is one tick of its symbol's history and leaves other symbols alone. |
| DepthFeed.DepthDiffer.Current | internal/api/binance/depthdiff.go:60-64 | Returns the last id without advancing it, drawing one for a new symbol. |
| Bech32.ChecksumExact | internal/custody/bitcoin.go:133-142 | For any prefix and data exactly one six-symbol tail makes the polymod 1, the one computed: BIP-173, section "Bech32". |
| Bech32.AbsorbLinear | internal/custody/bitcoin.go:106-119 | One polymod step is linear over XOR. |
| Bech32.OneErrorDetected | internal/custody/bitcoin.go:106-119 | Changing any one symbol changes the polymod. |
| Bech32.Polymod | internal/custody/bitcoin.go:106-119 | The loop with its five conditional XORs is the linear fold the code theorems speak of. |
| Bech32.PackSix | internal/custody/bitcoin.go:137-141 | Six shifted fields of a checksum absorb back to it. |
| Segwit.BuildChecksum | internal/custody/bitcoin.go:133-142 | The computed tail is the unique valid one. |
| Segwit.ExpandMeans | internal/custody/bitcoin.go:121-131 | The expanded prefix has length 2n+1 with a zero in the middle, and each letter is 32 times the symbol before the zero plus the one behind it. |
| AddressVectors.KnownEmpty | internal/custody/bitcoin.go:102-152 | BIP-173: no data under prefix a is a12uel5l. |
| AddressVectors.KnownAlphabet | internal/custody/bitcoin.go:102-152 | BIP-173: all 32 symbols in order under prefix abcdef give the published string, so every letter of the alphabet is right. |
| AddressVectors.KnownAddress | internal/custody/bitcoin_test.go:12-20 | The version 0 address of the program the repository tests is the published one. |
| Segwit.EncodeText | internal/custody/bitcoin.go:144-153 | Prefix, separator, symbols and checksum in the alphabet. |
| Segwit.Decode | internal/custody/bitcoin_send.go:124-143 | Accepts exactly the strings the encoder builds from a non-empty prefix, up to letter case, and returns that prefix and data; rejects all others. |
| Segwit.OneLetterRejected | internal/custody/bitcoin_send.go:124-143 | An encoded string with one data letter replaced is not any encoding. |
| Segwit.SegwitAddress | internal/custody/bitcoin.go:179-186 | The address is the encoding of version and regrouped program. |
| Segwit.SegwitProgram | internal/custody/bitcoin_send.go:146-159 | Returns the program of an address of the prefix, of any version, and fails exactly when there is none. |
| Segwit.AddressRoundTrip | internal/custody/bitcoin_send.go:146-159 | The program comes back for every version and program exactly when the prefix is lower case: BIP-173, section "Segwit address format". |
| Segwit.AddressUnique | internal/custody/bitcoin.go:179-186 | An address has one version and one program. |
| Regroup.ConvertBits | internal/custody/bitcoin.go:156-176 | The 8 to 5 loop yields the zero-padded regrouping although its 64-bit accumulator wraps. |
| Regroup.ConvertBits5to8 | internal/custody/bitcoin_send.go:162-177 | The 5 to 8 loop returns the bytes whose regrouping this is, and fails exactly when there are none. |
| Regroup.RegroupRoundTrip | internal/custody/bitcoin_send.go:162-177 | 8 to 5 to 8 is the identity on every byte string. |
| Regroup.GroupsUnique | internal/custody/bitcoin.go:156-176 | A byte string has one regrouping. |
| Base58.Encode | internal/custody/encoding.go:104-125 | The text of the bytes: letters for a number of the same value, one leading 1 per leading zero byte. |
| Base58.Decode | internal/custody/encoding.go:128-147 | Returns the bytes this is the text of, and fails exactly on a letter outside the alphabet. |
| Base58.RoundTrip | internal/custody/encoding.go:104-147 | Decoding after encoding is the identity on all byte strings, leading zero bytes included. |
| Base58.TextUnique | internal/custody/encoding.go:104-147 | Bytes and text determine each other, so re-encoding what a text decodes to gives that text back, leading 1s included. |
| Base58.CanonicalUnique | internal/custody/encoding.go:104-147 | Value and number of leading zeros determine a digit string in any base. |
| Base58.AlphabetIs | internal/custody/encoding.go:100-100 | The alphabet is the ascending list of letters and digits without 0, I, O and l. |
| Base58.ReverseInPlace | internal/custody/encoding.go:121-123 | Reverses the buffer in place. |
| Fix.RoundTrip | internal/api/fix/message.go:117-239 | Decoding an encoded message with SOH-free values returns fields 8 and 9, its own in order, and 10, exactly when the checksum found first is the right one; always when it has no field 10 of its own: FIX 4.4 standard header and trailer. |
| Fix.AcceptedMeans | internal/api/fix/message.go:185-239 | Whatever is accepted starts with 8=FIX.4.4 and 9, ends with 10, its BodyLength is the length of what lies between, and the first field 10 (0 if it is no number) is the byte sum of header and body modulo 256. |
| Fix.AcceptedExactly | internal/api/fix/message.go:185-239 | Fields read off the wire are the pieces of the raw bytes between separators, each a number, the first equals sign and the rest; the message is accepted exactly when header, trailer, length and checksum are right. |
| Fix.FrameExactly | internal/api/fix/message.go:129-156 | A read takes a frame exactly when the stream starts with two fields, the second declaring a length in bounds, that many bytes and one more field; nothing is lost. |
| Fix.KnownFrame | internal/api/fix/message.go:117-124 | An empty heartbeat is encoded to the published form, checksum 163. |
| Fix.ThreeDigitsWide | internal/api/fix/message.go:117-124 | The checksum field always has three digits. |
| Fix.StreamSplits | internal/api/fix/message.go:129-156 | Reading frames off any concatenation of encoded messages with bodies up to 2^20 bytes returns the originals and nothing is left. |
| Fix.FrameOfEncoded | internal/api/fix/message.go:129-156 | One frame read stops exactly at the end of the message, whatever follows. |
| Fix.Encode | internal/api/fix/message.go:117-124 | The built frame is header, body and checksum line. |
| Fix.Decode | internal/api/fix/message.go:185-239 | The parsing loop and the checks give the specified verdict and fields. |
| Fix.Reader.ReadFrame | internal/api/fix/message.go:129-156 | Reading from the stream is the frame function and leaves the rest. |
| Fix.Message.Set | internal/api/fix/message.go:63-70 | Appends the field; the index by tag keeps the values of each tag in order. |
| Fix.Message.Get | internal/api/fix/message.go:76-82 | The first value of the tag. |
| Fix.Message.GetInt | internal/api/fix/message.go:85-95 | Its number, when it is one. |
| Fix.Checksum | internal/api/fix/message.go:168-174 | The byte sum modulo 256. |
| LockFreeRuns.Linearizable | internal/concurrency/dict/lockfree_skiplist.go:42-125 | There is one order of operations on a finite map that ends in the current contents, and every returned call has one place in it, between its start and its return, where the map gives exactly the result the code computed from its snapshot or its swap. |
| LockFreeRuns.AnswerIsRight | internal/concurrency/dict/lockfree_skiplist.go:62-85 | What a Get or a declining Delete reads in the snapshot it loaded, however late, is what the map gave when it loaded it. |
| LockFreeRuns.SwapIsRight | internal/concurrency/dict/lockfree_skiplist.go:42-85 | The result returned after a successful swap is the map's. |
| LockFreeRuns.OneUpdatePerSwap | internal/concurrency/dict/lockfree_skiplist.go:42-85 | A successful swap applies exactly its operation to the current map; nothing else changes it. |
| LockFreeRuns.PublishedStays | internal/concurrency/dict/lockfree_tree.go:39-96 | A published snapshot never changes. |
| LockFreeRuns.RunKeeps | internal/concurrency/dict/lockfree_tree.go:39-71 | Sorted keys, agreement of keys and store, and single ownership of unpublished copies hold along every run. |
| LockFree.EditTowersSet | internal/concurrency/dict/lockfree_skiplist.go:42-59 | Editing the cloned entries is exactly one map update and keeps them strictly sorted. |
| LockFree.EditTowersDelete | internal/concurrency/dict/lockfree_skiplist.go:72-85 | Deleting likewise, and it declines exactly when the key is absent. |
| LockFree.GetTowers | internal/concurrency/dict/lockfree_skiplist.go:62-69 | The search finds exactly the stored value. |
| LockFree.MapLaws | internal/concurrency/dict/lockfree_skiplist.go:42-85 | The reference map: a get finds what was set last and nothing after a delete, a delete says whether there was something, no other key notices. |
| LockFree.Search | internal/concurrency/dict/lockfree_skiplist.go:121-125 | The binary search returns the first entry not before the key. |
| LockFree.EditTreeSet | internal/concurrency/dict/lockfree_tree.go:98-104 | Editing the cloned keys and store is exactly one map update, keys sorted and in step with the store. |
| LockFree.EditTreeDelete | internal/concurrency/dict/lockfree_tree.go:58-71 | Deleting and rebuilding the keys likewise. |
| Settle.SettledAtMostOnce | internal/optmarket/settle.go:100-199 | Under any interleaving of passes each symbol has at most one record and at most one cash-hook call, and no call without a record. |
| Settle.SettledExactlyWhenRecorded | internal/optmarket/settle.go:172-188 | With no pass running a symbol is marked settled exactly when it has a record. |
| Settle.UnavailableIsRetried | internal/optmarket/settle.go:111-118 | A symbol whose value was unavailable has no record and is claimable again by a pass it was closed to. |
| Settle.DrainCanHitUnsettled | internal/optmarket/settle.go:135-140 | A run from a fresh market in which the drain of one pass cancels an order of a symbol another pass then leaves unsettled. |
| Settle.DrainTakesExactly | internal/optmarket/settle.go:135-140 | In every reachable state a starting drain takes exactly the symbols with a record and those whose claim another pass holds; one it takes has no record if and only if another pass holds it. |
| Settle.RunKeeps | internal/optmarket/settle.go:100-199 | Claims, records and hook calls stay in step along every run. |
| Settle.SweptExactly | internal/optmarket/settle.go:100-146 | A pass alone settles, once each, exactly the listed expired symbols not settled before whose value is available. |
| Settle.SweptValues | internal/optmarket/settle.go:150-169 | Each record carries its contract's settlement value and kind. |
| Settle.HeldExactly | internal/optmarket/settle.go:150-169 | The cash hook gets exactly the records in which there is a position, as often as they occur. |
| Settle.SecondSweepIdle | internal/optmarket/settle.go:100-146 | A second pass over the same listing settles nothing. |
| Settle.Market.Settle | internal/optmarket/settle.go:100-146 | The pass on the object produces exactly those records and hook calls, marks exactly them, and leaves of their orders only those the engine will not cancel. |
| Settle.Market.FinishSettle | internal/optmarket/settle.go:150-169 | Cancels the rests it can, appends one record and calls the hook exactly when long positions exist. |
| Settle.Market.DrainSettled | internal/optmarket/settle.go:135-140 | Cancels what it can of the rests of marked symbols and of no others. |

## Left out

- HTTP, JSON, WebSocket pumps, authentication, latency sampling, metrics, FIX sessions and business handlers: plumbing around the modelled steps.
- Chain clients, signing, hashing, key storage and the transfer hub's network calls.
- Option instruments on the Binance edge (`settleOptionFill`, `unlockOptionRemainder`) and the WebSocket hook: the machine has the spot hooks, registry before ledger.
- `Registry.Record` (the seeder's and tests' variant that skips the uniqueness test), `Get`, `OpenOrders` and `snapshot`: reads and a special case of the modelled insert.
- A 128-bit overflow that panics in the middle of a handler: amounts in the exchange are unbounded integers; `Decimal` says when the 128-bit operations are exact.
- ExchangeRuns.Solvency: orders from outside this edge are `Exchange.Harmless`; `Outsiders.BorrowedEdgeIdExactly` proves that those are exactly the ones that keep the invariant, `Outsiders.BorrowedTradeMints` is a run beyond them. Their prices are unrestricted. The immediate-or-cancel calls, which only the tape replay and the sweep injector make, carry no id of this edge.
- Outsiders.BorrowedEdgeIdExactly: exact for the invariant. An order beyond it need not break a theorem in every continuation: one under a number that was drawn and refused, which nobody draws again, finds no record to act on.
- ExchangeRuns.LimitFillsExact: what moves between free balances is exact as long as the account has not been overdrawn before; after that a clamp can engage.
- ExchangeFills.LedgerMovedWhatIsReported: limit orders of instruments whose base is not their quote; a market fill moves what `Ledger.MarketBuyExact` and `Ledger.MarketSellExact` say, which its record does not show when the account cannot pay for all of it.
- ExchangePrices.BuyNeverOverpays: no lower bound, since a fill below zero makes the reported quote negative; `ExchangePriced.NonNegativePricesSuffice` has it where prices are not negative.
- ExchangeRuns.RegistryAgreesWithBook: limit records only, and others' orders are harmless (`Outsiders.BorrowedEdgeIdExactly`); a part-filled market order keeps an open status without resting.
- Server.EdgeServer.HandlePlaceOrder: one instrument's book, and parameter parsing and validation reduced to `Request.Valid`; the JSON reply is its kind only.
- OrderBook.SortByPrice: the library's stable sort is written as insertion.
- SeedingInv.TrackedMatchesBook: orders others place are `Seeding.Harmless`, exactly those that keep the invariant (`Outsiders.BorrowedSynthIdExactly`); they may cancel any, and such an order (in `revoked`) is excluded from the agreement.
- SeedingInv.NoOrphans: the same hypothesis; `Outsiders.BorrowedSynthIdOrphans` is the counterexample without it.
- Server.AcceptedRests: an order that meets nobody; one that trades is `Matching.CallTakes`, `ExchangeFills.ReportIsItsTrades` and `ExchangeTrading.PlaceKeeps`.
- Sessions.Serve: between the calls others send only orders under ids that are not of this edge's kind.
- LiveSeeder.Seeder.Converge: `MulFloat`'s rounding is the parameter `moved`; levels are placed in any order where the source sorts keys. One pass runs alone with the hooks its own placements fire; interleaving with other traders is `SeedingInv` and `SeedingMirror`. Engine errors and context cancellation are not part of this model.
- SeedingMirror.PartialPassApproaches: assumes that the float factor moves a level toward its reference volume and not past it.
- Reference: staleness, mid, spread and `Snapshot` are reads over the same view.
- DepthFeed.ClientCatchesUp: the REST snapshot must equal some seeded baseline at or after the id read; `handleDepth` reads the live book, for which `DepthFeed.CatchUpExactly` is the theorem. The `limit` that truncates the snapshot is not modelled.
- Level2.Feed: frames carry no sequence numbers, time stamps or JSON; the user and market-trade channels are left out.
- Segwit.Decode: strings are byte strings; `strings.ToLower` is modelled on ASCII letters, so the two other code points it lowers into ASCII (U+212A to k, U+0130 to i) and case changes of a non-ASCII prefix are not modelled. Mixed case is accepted as the source accepts it.
- Regroup.ConvertBits: the one call the source makes, from 8 to 5 bits with padding; the error for a byte out of range cannot arise from a byte slice and the general widths are not modelled.
- Fix.Decode: strings are byte strings and `int` is 64 bits; error texts are kinds.
- Base58.Encode: the big integer of the source is an unbounded integer.
- SkipList.SkipListMap.RandomLevel: the draw is any level from 1 to the maximum; the lock is not modelled because every method holds it throughout.
- LockFreeRuns.Linearizable: safety only; that a retry loop ends depends on the scheduler. `Len` and `Range` of the two maps read one loaded snapshot and are not modelled beyond that.
- Settle.Market.Settle: settlement values, positions, the cash hook and the orders that cannot be cancelled are parameters and logs.
- Rate limiting, volume-synchronised toxicity and price-impact estimators, volatility surfaces, pricing and `pkg/decimal/decimal_float64.go`: floating point.
