# Verified model of the marketplace's stateful core

A Dafny model of the parts of the marketplace that hold state, race, or compute something easy to get wrong, with proofs
about every history, every interleaving or every input. `dafny verify dfyconfig.toml` checks all of it.

- **Refresh tokens** (`RefreshTokens.dfy`). The table of refresh-token families as a class with the four operations of the
  store. Every history of it refines a family as it is meant to be: a chain of tokens with a dead flag.
- **The chain projection** (`Holdings.dfy`, `Auctions.dfy`, `Offers.dfy`, `Sales.dfy`, with `Sums.dfy`). The tables into
  which chain events are folded, one class per group of tables and one method per transaction. Each method equals a
  function (or, where the database may choose among ties, a relation) on the tables; the laws are proved over all event
  histories.
- **Protocols** (`KeeperLock.dfy`, `TtlCache.dfy`, `RedisCache.dfy`, `HealthProbe.dfy`, `AuditQueue.dfy`, and the second
  half of `CacheKey.dfy`). State machines whose steps are the lock sections, channel operations, pings and requests between
  which other goroutines, processes or the server can act. The theorems are about every sequence of steps.
- **Parsers, printers and checkers** (`StorageLayout.dfy`, `QueryCost.dfy`, `WeiFormat.dfy`, `AbiString.dfy`,
  `CacheKey.dfy`, `ListingsUrl.dfy`, with `Decimal.dfy` and `Options.dfy`). Loops are methods proved against functions; the
  functions carry the round trips and the exact conditions.

Where something one would expect of the code has an exception, the model follows the code, a lemma gives an input, and
another says exactly when it holds:

- An ERC-721 listing of a token removes the rows of ERC-1155 sellers of the same token (`MixedStandardsLoseBacking`,
  `SellersHoldIff`).
- The lazy eviction of the TTL cache can delete a fresh entry: it does exactly if the key was stored after the eviction's
  read and that write is in force and no older than the ttl (`FreshEntryCanBeLost`, `EvictionDestroysIff`,
  `FreshEntryIsLostIff`).
- An audit entry that `Log` puts on the channel is lost exactly if the worker has exited by then, which `Log` does not look
  at (`LateEntryIsLost`, `SentIsInsertedIff`).
- The storage-layout gate admits a variable on the slot just behind a gap, although it is neither appended nor in a slot the
  gap has freed; with `<` for `<=` in its guard it would keep its rule (`SlotBehindAGapIsAdmitted`, `RuleIsFollowedIff`).
- The query price does not count the rows of five list fields (`AdmittedYetUnbounded`). A list field's price bounds its
  response exactly if none of them is that field or inside it (`PriceHoldsIff`); for any field and any whole query the exact
  condition is on the row limits it selects (`PriceCoversIff`, `BudgetCoversIff`).
- Cache keys of one chain coincide when parts contain colons (`ColonsMeet`, `SameKeyIff`).
- A price as shown can be typed back only below a thousand whole coins, because of its commas (`ShownTextReadsBackIff`).

## Model

| member | source | states |
|---|---|---|
| RefreshTokens.RefreshStore.IssueRefreshFamily | backend/internal/auth/refresh.go:44-57 | one new unrevoked row, refused if the token id is taken |
| RefreshTokens.RefreshStore.RotateRefreshToken | backend/internal/auth/refresh.go:59-141 | the whole new table and the outcome of each branch: family lookup, family revoked, unknown token, replay, expiry, rotation, and the rollback when the new id is taken |
| RefreshTokens.RefreshStore.RevokeFamily | backend/internal/auth/refresh.go:143-150 | both flags on the rows of that wallet and family, nothing else |
| RefreshTokens.RefreshStore.Cleanup | backend/internal/auth/refresh.go:152-161 | exactly the rows expired more than an hour ago disappear |
| RefreshTokens.HistoryRefines | backend/internal/auth/refresh.go:44-161 | after any history with fresh random ids the table is the chains minus the links the cleanup has forgotten |
| RefreshTokens.OutcomesRefine | backend/internal/auth/refresh.go:44-161 | event by event, the store answers what the chains answer |
| RefreshTokens.OnlyLastIsUnrevoked | backend/internal/auth/refresh.go:121-132 | at most one row of a family is unrevoked, and it is the last issued |
| RefreshTokens.AcceptedAtMostOnce | backend/internal/auth/refresh.go:84-132 | no token id is accepted by two rotations of a history |
| RefreshTokens.NoRotationAfterReplay | backend/internal/auth/refresh.go:100-111 | after a detected replay every rotation in that family is refused |
| RefreshTokens.LogoutEndsTheFamily | backend/internal/auth/refresh.go:143-150 | after the issuing wallet's logout every rotation in the family is refused; another wallet's logout changes nothing |
| RefreshTokens.RotationAcceptedIff | backend/internal/auth/refresh.go:59-161 | whatever the clocks read, a rotation succeeds if and only if it presents the last token of a live, unspent chain in date and no cleanup has removed its row |
| RefreshTokens.RotationSucceedsIff | backend/internal/auth/refresh.go:59-161 | while no cleanup's clock is more than the retention hour ahead of a later rotation's, a rotation succeeds if and only if it presents the last token of a live, unspent chain in date: the cleanup never removes such a token |
| RefreshTokens.ReplayDetectedIff | backend/internal/auth/refresh.go:87-111 | a token presented again after it was accepted is reported as a replay exactly while its row is in the table and the family is not revoked, and is never accepted |
| RefreshTokens.UsedInDateIsRecognised | backend/internal/auth/refresh.go:71-111 | under the same bound on the clocks, a used token presented again while in date is always reported: as a replay, or as one of a revoked family |
| RefreshTokens.RowIsItsHistory | backend/internal/auth/refresh.go:44-161 | after any history a row is there if and only if an event wrote it and no cleanup has found it stale since; it is revoked exactly since it was rotated away, presented too late, or logged out, and revoked as a family exactly since a replay in the family or that logout |
| RefreshTokens.NoRotationAfterExpiry | backend/internal/auth/refresh.go:112-119 | after a token was presented past its expiry every rotation in that family is refused |
| RefreshTokens.AnswerIff | backend/internal/auth/refresh.go:71-141 | each of the seven answers, if and only if the rows of the family are as it says |
| Holdings.Projection.ApplyTransfer721 | backend/internal/db/queries_rework.go:272-303 | sole owner row, token owner, and every other seller's active listing orphaned |
| Holdings.Projection.ApplyTransfer1155 | backend/internal/db/queries_rework.go:307-343 | credit, clamped debit, and the sender's listing orphaned once nothing is left |
| Holdings.Projection.UpsertListingAndOwnership | backend/internal/db/queries.go:2064-2106 | listing revived with its new terms, chain_cleaned kept, seller's row seeded |
| Holdings.Projection.EnsureListingSellerOwnership | backend/internal/db/queries_rework.go:464-483 | GREATEST for ERC-1155, delete and insert for ERC-721 |
| Holdings.Projection.OrphanListing | backend/internal/db/queries_rework.go:486-493 | an active listing becomes orphaned and inactive |
| Holdings.Projection.DeactivateListing | backend/internal/db/queries.go:668-673 | the listing is inactive and chain_cleaned |
| Holdings.Projection.DeactivateExpiredListing | backend/internal/db/queries.go:1903-1909 | an active, not orphaned listing becomes inactive |
| Holdings.Projection.DeactivateAndSale | backend/internal/db/queries.go:1991-2016 | as DeactivateListing, and the sale recorded once per transaction |
| Holdings.AlwaysSound | backend/internal/db/queries_rework.go:272-343 | in every reachable state no orphaned listing is active, a token has at most one ERC-721 row, and sales are never rewritten |
| Holdings.SellersHoldIff | backend/internal/db/queries.go:2080-2104 | an event keeps every open ERC-1155 listing backed by positive units if and only if it does not clear the rows of another such seller |
| Holdings.ActiveListingsAreBacked | backend/internal/db/queries_rework.go:307-343 | in every history of an ERC-1155 token each active listing of at least one unit has a seller with units |
| Holdings.MixedStandardsLoseBacking | backend/internal/db/queries.go:2090-2104 | a two-event history in which an ERC-721 listing empties an ERC-1155 seller's row |
| Holdings.ExactIffCovered | backend/internal/db/queries_rework.go:314-331 | one event keeps the table equal to the ledger if and only if it reaches for no units that are not there; this is when the clamp and GREATEST change nothing |
| Holdings.LedgerExact | backend/internal/db/queries_rework.go:307-343 | for every history without overdrafts, self-transfers included, every owner's units are the ledger balance |
| Holdings.TotalIsMintedMinusBurned | backend/internal/db/queries_rework.go:307-343 | and all units together are those minted minus those burned |
| Holdings.PreflightIsTruthful | backend/internal/db/queries_rework.go:501-515 | then preflight's seller_owns is what the ledger says |
| Holdings.FollowsHolderIff | backend/internal/db/queries_rework.go:272-303 | a step keeps ERC-721 listings and ownership with the holder if and only if whoever it seeds is the holder |
| Holdings.ListingsFollowTheHolder | backend/internal/db/queries_rework.go:290-301 | when transfers come in order and only the holder lists, every active listing is the current holder's, and so is the only ownership row |
| Holdings.HolderIsRecorded | backend/internal/db/queries_rework.go:279-295 | after a transfer the token's owner column and a positive row name the holder |
| Holdings.TransferOrphansIff | backend/internal/db/queries_rework.go:328-339 | a transfer of units orphans the sender's active listing if and only if it leaves the sender no units, and changes no other listing |
| Holdings.SurvivesTransferIff | backend/internal/db/queries_rework.go:328-339 | so in every history without overdrafts it survives if and only if the ledger balance is positive |
| Holdings.ListingStep | backend/internal/db/queries_rework.go:272-343 | for every event, which listings it creates, renews, orphans, ends or leaves alone |
| Holdings.ListedIff | backend/internal/db/queries.go:2064-2089 | a listing is there if and only if its seller has listed |
| Holdings.ListingIsItsHistory | backend/internal/db/queries.go:2064-2106 | in every history it shows the terms of its last listing, is active until the first event since that takes it down, orphaned if that event orphaned it, and cleaned if it was ever cancelled or bought |
| Holdings.OverdraftLeaves | backend/internal/db/queries_rework.go:314-331 | an overdraft leaves the sender nothing; to oneself, what one had |
| Holdings.SeedRaises | backend/internal/db/queries_rework.go:464-483 | listing or verifying leaves an ERC-1155 seller the larger of what the row had and the amount |
| Holdings.RowsStay1155 | backend/internal/db/queries_rework.go:307-343 | in every history of an ERC-1155 token that lists no negative amount, no row is negative or of the other standard |
| Holdings.OnlyRowIsLastOwner | backend/internal/db/queries_rework.go:272-303 | in every history of an ERC-721 token, in order or not, its only row is one unit of whoever was last sent it or listed it, and there is none after a burn |
| Holdings.OwnerIsLastRecipient | backend/internal/db/queries_rework.go:290-295 | in every history the owner column is the recipient of the last transfer |
| Holdings.SaleIsTheFirst | backend/internal/db/queries.go:2008-2011 | in every history the sale of a transaction is the first that was recorded for it |
| Sales.Record | backend/internal/db/queries.go:2008-2011 | recording adds the transaction and never changes a row |
| Auctions.AuctionBook.InsertBidAndUpdateAuction | backend/internal/db/queries.go:2021-2052 | the bid is stored once per transaction and the leader columns are a maximal bidder of the view, or the call fails for an unknown auction and changes nothing |
| Auctions.AuctionBook.UpsertAuction | backend/internal/db/queries.go:869-884 | inserts, or overwrites the leader, the end and the status |
| Auctions.AuctionBook.SetAuctionStatus | backend/internal/db/queries.go:886-890 | only the status changes |
| Auctions.AuctionBook.ExtendAuction | backend/internal/db/queries.go:894-898 | only the end of an active auction changes |
| Auctions.AnyBidHeals | backend/internal/db/queries.go:2033-2047 | any bid, even a repeated one, makes the leader columns right whatever they held |
| Auctions.LeaderAlwaysRight | backend/internal/db/queries.go:2018-2052 | after any sequence of transactions, bids in any order and repeated, highest_bid_wei is the maximum over bidders of the sum of their distinct-transaction bids and highest_bidder attains it |
| Auctions.TableIsWhatWasPlaced | backend/internal/db/queries.go:2026-2032 | in every run the bids table holds exactly the bids placed, first of each transaction, less those refused for an unknown auction |
| Auctions.OrderDoesNotMatter | backend/internal/db/queries.go:2026-2047 | two runs that placed the same bids, in whatever order and however often, end with the same bids table and the same highest_bid_wei |
| Auctions.OutbidMatchesClient | app/src/lib/optimistic.ts:126-133 | a bid that lifts its bidder above the maximum makes the backend's columns those the client shows at once |
| Auctions.ClientTracksBackend | app/src/lib/optimistic.ts:126-133 | over a whole run of such bids client and backend show the same leader, the last bidder, and the same amount |
| Auctions.BidKeepsTheRest | backend/internal/db/queries.go:2043-2046 | a bid keeps the end and the status of every auction, and every column of every other auction |
| Auctions.ThereIfCreated | backend/internal/db/queries.go:869-884 | in every run an auction is there if and only if it was created |
| Auctions.StatusIsLastSet | backend/internal/db/queries.go:886-890 | in every run its status is that of the last event that created it or set its status |
| Auctions.EndIsLastSet | backend/internal/db/queries.go:894-898 | and its end that of the last event that created it, or extended it while active |
| Auctions.LeaderIsCreatedUntilBid | backend/internal/db/queries.go:869-884 | until the next bid the leader columns are those it was created with |
| Offers.OfferBook.UpsertOfferPosition | backend/internal/db/queries_rework.go:349-360 | the pending row of the position takes the new terms and adds the fee, or a new pending row appears |
| Offers.OfferBook.SetOfferStatus | backend/internal/db/queries_rework.go:362-368 | only pending rows of the position change |
| Offers.OfferBook.ExpireOffers | backend/internal/db/queries.go:1681-1688 | exactly the overdue pending rows expire, and their number is returned |
| Offers.OfferBook.CancelOffer | backend/internal/db/queries.go:1690-1696 | only the bidder's own pending row is cancelled |
| Offers.OfferBook.AcceptOfferAndRecordSale | backend/internal/db/queries.go:2116-2140 | pending rows of the position are accepted and the sale recorded once |
| Offers.AlwaysOnePending | backend/internal/db/queries_rework.go:349-360 | in every history a bidder has at most one pending offer per token |
| Offers.ClosedIsFrozen | backend/internal/db/queries_rework.go:362-368 | a row that has left pending never changes again, and no row disappears |
| Offers.PendingRowIsItsStack | backend/internal/db/queries_rework.go:349-360 | a pending row is there exactly when events have built it since the position was last closed, and holds the latest terms and the sum of their fees |
| Offers.FeesConserved | backend/internal/db/queries_rework.go:353-356 | the fees on all rows of a position are the fees of all its events |
| Offers.ClosingNames | backend/internal/db/queries.go:1681-1696 | whatever event takes a row out of pending leaves it the status the event names: expired by the sweep, cancelled by its bidder, accepted by the acceptance, or the status set |
| Offers.ClosedAsIff | backend/internal/db/queries_rework.go:362-368 | in every history a row is accepted, expired or cancelled if and only if the event that closed it names that status |
| KeeperLock.NoSplitBrainWithoutADrop | backend/internal/db/keeperlock.go:30-102 | two contexts are live together only if the server dropped the session of one |
| KeeperLock.DroppedSessionIsNoticed | backend/internal/db/keeperlock.go:52-79 | a dropped session's context ends within the ping interval plus the ping timeout |
| KeeperLock.OverlapIsBounded | backend/internal/db/keeperlock.go:52-79 | two contexts overlap for at most fifteen seconds |
| KeeperLock.OverlapBoundIsReached | backend/internal/db/keeperlock.go:52-79 | a run that reaches the fifteen seconds |
| KeeperLock.NoMonitorStepAfterUnlock | backend/internal/db/keeperlock.go:81-92 | in every run, once release has unlocked, the session's monitor takes no step any more and its context is never live again |
| KeeperLock.PartingFreesTheLock | backend/internal/db/keeperlock.go:70-92 | after the unlock of release, the closing of a lost session, or giving up, the server does not hold the lock for that session, and if it did, grants it to whoever asks next |
| KeeperLock.ReleaseHandsOver | backend/internal/db/keeperlock.go:81-92 | in every run, once release was called, there are steps after which another instance holds the lock |
| KeeperLock.ContextEnds | backend/internal/db/keeperlock.go:50-83 | a context ends exactly with its parent, the call of release or a failed ping, and never comes back |
| TtlCache.Cache.Get | backend/internal/cache/cache.go:48-68 | result, eviction and counters of a Get that nobody interrupts |
| TtlCache.Cache.Set | backend/internal/cache/cache.go:72-77 | the entry, its expiry and the counter |
| TtlCache.Cache.ClearAll | backend/internal/cache/cache.go:81-85 | no entry is left |
| TtlCache.Cache.Count | backend/internal/cache/cache.go:89-93 | the number of keys, stale ones included |
| TtlCache.Cache.Warm | backend/internal/cache/cache.go:97-104 | all values with one expiry, other entries unchanged |
| TtlCache.GetAloneIff | backend/internal/cache/cache.go:48-68 | an uninterrupted Get finds a value if and only if it is there and in date; otherwise nothing is left under the key; other keys are untouched and each counter grows as it says |
| TtlCache.GetIsItsSteps | backend/internal/cache/cache.go:48-68 | from any state of the protocol, the steps of one Get without interruption end in the store and with the answer of `Cache.Get` |
| TtlCache.SetAndClearAreSteps | backend/internal/cache/cache.go:72-85 | and its steps for Set and Clear are those of `Cache`, which store the value for one ttl or leave nothing |
| TtlCache.WarmIsItsSteps | backend/internal/cache/cache.go:97-104 | and its steps for all keys of a Warm, in any order, end as `Cache.Warm` does |
| TtlCache.HitsAreFreshAndLast | backend/internal/cache/cache.go:48-104 | in every interleaving a hit is the last write to its key before its read, not cleared since, and no older than the ttl |
| TtlCache.FinishedAreCounted | backend/internal/cache/cache.go:52-66 | hits and misses count exactly the finished Gets |
| TtlCache.ReadsFindIff | backend/internal/cache/cache.go:49-51 | a read finds an entry exactly when the last write has been neither cleared nor evicted |
| TtlCache.EvictionDestroysIff | backend/internal/cache/cache.go:56-61 | an eviction deletes a newer entry if and only if the key was stored after its read and that write has been neither cleared nor evicted; else nothing but the stale entry it read |
| TtlCache.FreshEntryIsLostIff | backend/internal/cache/cache.go:56-61 | the entry it deletes is fresh exactly if there is such a write and it is no older than the ttl |
| TtlCache.FreshEntryCanBeLost | backend/internal/cache/cache.go:56-61 | an interleaving in which it deletes a newer entry |
| RedisCache.HitsWereSetWithinTtl | backend/internal/cache/redis.go:107-180 | under any mix of Redis errors, late requests, failed pings and recoveries a hit returns data that a Set call wrote under that key, last at that site, within the ttl |
| RedisCache.GetHitsIff | backend/internal/cache/redis.go:127-153 | an uninterrupted Get hits if and only if Redis, enabled and answering, has the key in date, or else the instance's own cache does |
| RedisCache.SetWrites | backend/internal/cache/redis.go:158-180 | an uninterrupted Set writes its value for one ttl to Redis if enabled and answering, else to the instance's own cache, and changes nothing else |
| RedisCache.FinishedSetsHaveWritten | backend/internal/cache/redis.go:158-180 | under any mix of failures a Set that has returned has written its value somewhere |
| RedisCache.FlagFollowsThePing | backend/internal/cache/redis.go:107-122 | the flag of an instance is what its last ping said and is changed by nothing but pings and closing |
| RedisCache.RemovalIsLocal | backend/internal/cache/redis.go:182-190 | clearing takes away all entries of the instance's own cache and no others |
| HealthProbe.ProbesAreSingleFlight | backend/internal/health/health.go:117-137 | at most one probe runs, and never while the cached entry is fresh |
| HealthProbe.OnlyLiveProbesAreCached | backend/internal/health/health.go:129-135 | a status enters the cache only from a probe that ended while its caller's context was live |
| HealthProbe.WritesAreApart | backend/internal/health/health.go:122-135 | cache writes are at least a ttl apart |
| HealthProbe.CachedAnswersAreFresh | backend/internal/health/health.go:140-147 | an answer from the cache was written less than a ttl before |
| HealthProbe.CheckAlone | backend/internal/health/health.go:79-137 | an uninterrupted call is answered from the cache without a probe if and only if the entry is fresh, otherwise with the probe's status, which is then cached for a ttl |
| HealthProbe.ProbeEndsIn | backend/internal/health/health.go:129-136 | a probe that ends caches its status if and only if the context is live, and answers its caller either way |
| HealthProbe.WaiterTakesTheEntry | backend/internal/health/health.go:122-127 | a caller that waited for the lock takes the entry stored meanwhile |
| HealthProbe.HolderGoesOn | backend/internal/health/health.go:122-137 | in every run the holder of the lock has a next step and each brings it closer to the release |
| HealthProbe.AnswersWereProbed | backend/internal/health/health.go:117-137 | in every run an answer that is not from the cache is that of a probe that was run |
| AuditQueue.WithDetails | backend/internal/auth/audit.go:107-109 | empty details become an empty JSON object, present ones and all else are kept |
| AuditQueue.CloseFlushes | backend/internal/auth/audit.go:127-151 | when Close returns, every entry accepted before the signal has been inserted, once and in queue order |
| AuditQueue.QueueOrderIsKept | backend/internal/auth/audit.go:103-151 | inserted entries are always a prefix of the accepted ones and the buffer holds at most 1024 |
| AuditQueue.SentIsInsertedIff | backend/internal/auth/audit.go:114-151 | an entry sent with room in the buffer is inserted, in its place in the queue, if and only if the worker has not exited when it is sent; if it has, quit was closed |
| AuditQueue.LateEntryIsLost | backend/internal/auth/audit.go:114-125 | a run in which that happens |
| AuditQueue.ExitIsFinal | backend/internal/auth/audit.go:132-151 | nothing is inserted after the worker has exited |
| AuditQueue.DrainIsBounded | backend/internal/auth/audit.go:139-149 | after the signal the worker takes a bounded number of steps, whatever loggers do |
| AuditQueue.WorkerIsNeverStuck | backend/internal/auth/audit.go:132-151 | and until it has exited it can take one, so Close returns |
| AuditQueue.LogAlone | backend/internal/auth/audit.go:103-125 | an uninterrupted Log puts the entry at the end of the queue if and only if quit is not closed and the buffer has room, and otherwise changes nothing |
| AuditQueue.DrainAlone | backend/internal/auth/audit.go:139-149 | the worker left alone after the signal inserts the whole buffer in order and exits |
| AuditQueue.CloseCanReturn | backend/internal/auth/audit.go:127-130 | from every state that satisfies the invariant there are steps after which a Close called now has returned |
| StorageLayout.Compare | tools/check-storage-layout.py:77-115 | the gate's loops and dictionaries report exactly the problems of the specification, in order |
| StorageLayout.CheckOld | tools/check-storage-layout.py:84-99 | moved, disappeared and retyped variables |
| StorageLayout.CheckNew | tools/check-storage-layout.py:100-114 | variables neither old, above, nor inside a gap |
| StorageLayout.GapLenOfGapType | tools/check-storage-layout.py:72-74 | the length printed into a gap's type id is read back |
| StorageLayout.QuietIff | tools/check-storage-layout.py:77-115 | no problem is reported if and only if every old variable is kept, gaps at most shrunk, and every new one is above or in a gap |
| StorageLayout.ReportedIff | tools/check-storage-layout.py:77-115 | a problem is reported if and only if it is true of some old or new variable: moved with the places it now has, gone, retyped other than by shrinking a gap, or new neither above nor within reach of a gap |
| StorageLayout.SameLayoutIsAccepted | tools/check-storage-layout.py:77-115 | a layout with unique keys is accepted against itself |
| StorageLayout.VariablesStay | tools/check-storage-layout.py:84-99 | over any chain of accepted layouts a variable that is no gap keeps slot, offset and type |
| StorageLayout.GapsOnlyShrink | tools/check-storage-layout.py:95-98 | over any such chain a gap keeps its place and never grows |
| StorageLayout.NobodyTakesItsBytes | tools/check-storage-layout.py:3-24 | through any number of such upgrades no other variable has any byte of a kept one |
| StorageLayout.InsideAGapIsFree | tools/check-storage-layout.py:108-111 | a one-slot variable strictly inside a gap meets no other old variable, and meets what is left of the gap exactly if it did not shrink below it |
| StorageLayout.AboveIsFree | tools/check-storage-layout.py:106-107 | a variable above all old ones meets none that fits its slot |
| StorageLayout.RuleIsFollowedIff | tools/check-storage-layout.py:13-17 | in layouts of the compiler an accepted new variable is appended or in a slot freed by shrinking a gap if and only if it is above every old one or strictly inside some gap |
| StorageLayout.SlotBehindAGapIsAdmitted | tools/check-storage-layout.py:108-111 | an accepted, non-overlapping layout whose new variable is neither: it is packed into the slot behind a gap that has not shrunk |
| QueryCost.ChargedCoversFetched | backend/internal/graphql/complexity.go:484-504 | for every limit, missing, negative or huge, the charged count is at least what the resolver fetches |
| QueryCost.ChargeIsExactIff | backend/internal/graphql/resolver.go:238-242 | charged and fetched count are equal if and only if the limit is one the resolver takes, or there is none and the resolver's default is fifty |
| QueryCost.CostCoversLeaves | backend/internal/graphql/complexity.go:55-482 | whatever the data, a field without uncounted lists below it costs at least the scalar leaves of its response |
| QueryCost.AdmittedIsBounded | backend/internal/graphql/complexity.go:22-27 | such a query within the budget returns at most the budget in leaves |
| QueryCost.PriceCoversIff | backend/internal/graphql/complexity.go:55-504 | for any field, lists in lists included, the price bounds the leaves of every response if and only if the product of row limits read off the query does |
| QueryCost.BudgetCoversIff | backend/internal/graphql/complexity.go:22-27 | the same for a whole query and any budget, with or without uncounted lists |
| QueryCost.PriceHoldsIff | backend/internal/graphql/complexity.go:442-466 | for a list field of the schema, whatever it selects, the price bounds every response if and only if neither it nor a list inside it is one of walletNFTs, tokenAttributes, bids, effectiveBids, positions |
| QueryCost.PriceIsWithinTenPerNode | backend/internal/graphql/complexity.go:55-504 | where every limit is charged exactly, the price is at least the leaves of the largest response and at most ten more for each object and list in it |
| QueryCost.AdmittedYetUnbounded | backend/internal/db/queries.go:517-541 | a query of cost 17 whose response exceeds any number, because batched bids have no row limit |
| QueryCost.PriceDoesNotWrap | backend/internal/graphql/complexity.go:484-489 | a well-typed query of fewer than 2^39 selected fields has a price within 64 bits |
| QueryCost.PartsCostLess | backend/internal/graphql/complexity.go:413-466 | a field costs more than what is selected below it |
| WeiFormat.DisplayLosesOnlyTheRemainder | app/src/lib/format.ts:17-33 | reading back a shown price without its commas gives n minus n mod 10^(18-k) |
| WeiFormat.ShownTextReadsBackIff | app/src/lib/format.ts:17-33 | with its commas it reads back, to the same amount, if and only if n is not negative and below 10^21; otherwise it is refused |
| WeiFormat.TrimZeros | app/src/lib/format.ts:23 | drops exactly the trailing zeros |
| WeiFormat.StrayCharacterIsRefused | app/src/lib/format.ts:30-32 | one character that is no digit, dot or space makes toWei refuse |
| WeiFormat.GroupsOfThree | app/src/lib/format.ts:24 | commas separate groups of three digits counted from the right, and nothing else |
| WeiFormat.NegativeIsShownAs | app/src/lib/format.ts:21-25 | a negative amount is shown as its opposite behind a minus |
| WeiFormat.ShownIs | app/src/lib/format.ts:21-25 | what is shown is the quotient by 10^18 in groups of three and at most k fraction digits that do not end in zero |
| WeiFormat.DroppingIsDividing | app/src/lib/format.ts:21 | the whole part shown, the number without its last eighteen digits, is its quotient by 10^18 |
| WeiFormat.SpelledIsRead | app/src/lib/format.ts:30-33 | digits with an optional point, and space around, read as their value in wei; more than eighteen fraction digits are reported unless the rest are zeros |
| WeiFormat.AcceptedIff | app/src/lib/format.ts:30-33 | toWei accepts a text if and only if it is of that form |
| AbiString.SanitizeUTF8 | backend/internal/chain/standard.go:230-239 | the loop writes exactly the kept runes, then trims |
| AbiString.RunesOfEncode | backend/internal/chain/standard.go:232-237 | runes written are the runes read |
| AbiString.EncodeOfRunes | backend/internal/chain/standard.go:232-237 | bytes without an error are the encoding of their runes |
| AbiString.SanitizedIsClean | backend/internal/chain/standard.go:226-239 | the result never has a control character, a replacement rune, or a space at either end |
| AbiString.SanitizedIsSameIff | backend/internal/chain/standard.go:230-239 | sanitizing leaves a string alone if and only if it is clean |
| AbiString.SanitizedIsIdempotent | backend/internal/chain/standard.go:230-239 | sanitizing twice is sanitizing once |
| AbiString.TextIsUntouched | backend/internal/chain/standard.go:226-239 | text without control, delete and replacement characters and without outer spaces is left alone |
| AbiString.ControlIsDropped | backend/internal/chain/standard.go:233-235 | a control, delete or replacement character changes nothing, wherever it stands |
| AbiString.SanitizedIsHarmless | backend/internal/chain/standard.go:226-239 | no result has a byte below 0x20 or the byte 0x7F |
| AbiString.RunesOfAscii | backend/internal/chain/standard.go:232 | the runes of ASCII bytes are the bytes |
| AbiString.DecodeOfAbi | backend/internal/chain/standard.go:201-217 | decoding the ABI encoding of s, whatever follows it, gives s sanitized, for every length below 2^64 |
| AbiString.DecodeOfFixed | backend/internal/chain/standard.go:219-220 | decoding up to 32 bytes padded with NULs gives them sanitized |
| AbiString.DecodedIsClean | backend/internal/chain/standard.go:201-224 | every input decodes to a clean string |
| AbiString.OverlongLengthIsEmpty | backend/internal/chain/standard.go:206-220 | a length past the buffer, up to the largest 64-bit word, decodes to the empty string |
| CacheKey.Key | backend/internal/cache/key.go:22-32 | the builder's loop yields the specified key |
| CacheKey.SameKeyIff | backend/internal/cache/key.go:22-32 | two keys are equal if and only if the chains are and the parts have the same colon-separated pieces |
| CacheKey.KeysAreDistinct | backend/internal/cache/key.go:12-21 | chains never share a key, and parts without colons are determined by it |
| CacheKey.ColonsMeet | backend/internal/cache/key.go:28-31 | two part lists with one key |
| CacheKey.NoKeyIsTheMarker | backend/internal/cache/key.go:34-38 | no key is the boot marker |
| CacheKey.Redis.BindChain | backend/internal/cache/key.go:58-75 | claims a free Redis, verifies a claimed one: bound if and only if nothing was there or the marker read names this chain, a mismatch if and only if it does not; never changes another entry or an existing marker, and answers an error for lost requests |
| CacheKey.NamesIff | backend/internal/cache/key.go:71 | the trimmed marker is the chain's numeral if and only if the marker is that numeral with spaces around |
| CacheKey.BindAlone | backend/internal/cache/key.go:58-75 | from any state of the protocol, the requests of one call without interruption answer and write as `BindChain` does |
| CacheKey.OneChainPerRedis | backend/internal/cache/key.go:48-75 | however binders and cache writes of any chains interleave, all binders that succeed are of the one chain in the marker |
| ListingsUrl.ParseListingsParams | app/src/lib/api.ts:74-100 | the statements yield the specified state and complaints |
| ListingsUrl.ParseBounds | app/src/lib/api.ts:80-83 | the loop over the two price bounds |
| ListingsUrl.ListingsSearch | app/src/lib/api.ts:103-113 | the statements yield the specified parameters |
| ListingsUrl.GetOfSet | app/src/lib/api.ts:104-110 | setting a parameter changes what is read under its name and no other |
| ListingsUrl.ParsedIsValid | app/src/lib/api.ts:69-100 | any query reads as a valid, seller-free state |
| ListingsUrl.ReportedIff | app/src/lib/api.ts:69-73 | the names reported are exactly those of values that are present and not well-formed, each once |
| ListingsUrl.FieldsAre | app/src/lib/api.ts:74-100 | each field is the value under its name if that is well-formed, and the default otherwise, whatever the other values are, but for traits, which need a collection |
| ListingsUrl.TraitsIff | app/src/lib/api.ts:96 | the pattern for traits matches exactly the comma-separated lists of name:value whose parts are not empty and hold no colon or comma |
| ListingsUrl.RoundTripIff | app/src/lib/api.ts:74-113 | reading the printed form gives the state back with nothing invalid if and only if the state is valid |
| ListingsUrl.ReadingSettles | app/src/lib/api.ts:74-113 | for any query, reading, printing and reading again is reading |
| ListingsUrl.PrintIsInjective | app/src/lib/api.ts:103-113 | different valid states print differently |
| ListingsUrl.BoundsConvert | app/src/lib/api.ts:126-130 | a bound read from the URL always converts to wei, so the request builder's fallback is never taken |

## Left out

- PostgreSQL itself: each transaction is one atomic, serialised step and each statement means what it says; locking clauses
  (also the combination of `FOR UPDATE` with an aggregate), several statements with parameters in one call, replicas and
  failing connections are not modelled.
- Holdings.Projection.EnsureListingSellerOwnership: its two ERC-721 statements are one step here, although the source runs
  them outside a transaction.
- The foreign key from collections and columns that no statement of the model reads (updated_at, block times).
- Auctions.LeaderAlwaysRight: an auction is not created again once it has bids; replaying `UpsertAuction` overwrites the
  leader columns until the next bid, which `AnyBidHeals` covers.
- A deterministic winner among tied bid totals: the model lets the database choose any.
- Idempotence of `ApplyTransfer1155`, which adds units each time, and resetting `chain_cleaned` on a new listing: the code
  does neither.
- The 64-bit width of listing amounts and the database's limits on numerics.
- RefreshTokens.RotationSucceedsIff: assumes, like `UsedInDateIsRecognised`, that the database's clock at a cleanup is no more
  than the retention hour ahead of the server's at a later rotation; without that `RotationAcceptedIff` holds. That the signed
  token around an identifier carries the same expiry and is checked first is not part of this model.
- Random identifiers are parameters, assumed not to repeat.
- The protocols are modelled on values, step by step, not as methods that update shared objects: what is atomic in them is
  the step, and the Go runtime's scheduling is any order of steps.
- KeeperLock.OverlapIsBounded: a monitor acts when its ticker or ping deadline is due; a stopped process is not modelled.
  Failed dials and the retry delay before the lock is granted are left out.
- KeeperLock.NoSplitBrainWithoutADrop: the context is cancelled at the instant a ping fails. In the source a log line comes
  before, and a ping that reaches its deadline lets the driver close the session before it returns; the model has that only
  as a drop by the server.
- RedisCache.HitsWereSetWithinTtl: Redis expiry is exact, values are their JSON text, and values that cannot be marshalled
  or unmarshalled, writers other than the caches, and the hit and miss totals are left out.
- The details of health probes (their timeouts and the head-lag check), `Watch`'s stream of updates, the audit retention
  sweeper and the columns of the audit insert.
- StorageLayout.RuleIsFollowedIff: layouts are taken as the compiler makes them, without overlaps, empty types or offsets past
  a slot; the gate does not check that, and `NobodyTakesItsBytes` says what it then keeps.
- The storage-layout tool's file handling, its invocation of the compiler, and the stripping of AST ids from type names.
- QueryCost.CostCoversLeaves: that the remote service behind the resolvers keeps to the limit it is asked for is assumed;
  subscriptions, the depth limit and `traitValues`, one leaf of unbounded size, are left out.
- WeiFormat.DisplayLosesOnlyTheRemainder: of the library, only what 18 decimals need; inputs with more than 18 significant
  fraction digits, which it rounds, are reported as `TooFine`, and the null, empty and textual inputs of `fmtPrice` are left
  out.
- AbiString.DecodeOfAbi: `Uint64` of a larger number is its low 64 bits, as implemented, though documented as undefined.
- CacheKey.OneChainPerRedis: nobody but the binders writes the marker; dialling Redis and logging are left out.
- ListingsUrl.RoundTripIff: percent-encoding and `URLSearchParams`' text form are left out, and `Number` is a parameter of
  which only that it reads decimal numerals is assumed.
- HTTP routing, handlers, user interface, contracts, indexer, cryptography and the other reducers of the client.
