# Verified model of the luv trading engine core

A Dafny model of the parts of the engine where correctness is hard: the limit order book and
its order-reference table, the execution gateway with its reconciliation and recovery ledgers,
the circuit breaker, the lock-free block pool, the single-producer single-consumer rings, the
HTTP/execution bridge, the opening-cross and dark-pool matchers, and the two replication
state machines.

How it is organised:

| part | files |
|---|---|
| limit order book | `BookSpec` (a map of orders plus one FIFO queue per price), `PriceLevels` (slots and linked lists), `BookRep` (when storage represents a book), `Arena` (sorted level rows), `OrderRefMap` (open addressing), `BookFeed` (book and table keys over whole feeds), `OrderBook` (the engine) |
| symbol directory | `SymbolTable` |
| execution gateway | `Risk`, `OpenOrders`, `GatewayState`, `GatewayRuns` (the gateway as a function of its calls), `Gateway`, `GatewayFailures`, `Recovery` (write-ahead log), `Ledger`, `LedgerRuns`, `Reconciliation` (the reconciliation table, its runs and its object), `Breaker` |
| concurrent structures | `Mempool`; `RingIndex`, `RingProtocol`, `PacketRing`; `Bridge`, `BridgeSystem`, `BridgeClients`, `BridgeRuns`, `BridgeOutcomes`, `HttpListener` |
| matching | `Auction`, `DarkPool` |
| replication | `HotStandby`, `StandbyLogs`, `HybridClock`, `RegionLogs` |
| shared arithmetic | `Finite`, `Probing` |

Objects the engine updates in place are classes with the same fields; each method is proved
against a function or predicate on values, and what the engine promises is proved about that
function, that predicate or the class invariant. Protocols between threads or machines are
state machines with one step per shared access, and their theorems range over every run.

Main results:

- **The book refines its specification.** For every tick sequence the engine's book and the
  keys of its table are a function of the ticks: which orders are taken, refused or replaced is
  fixed, and the book is the run of a map-plus-queues specification. Levels stay strictly sorted
  and non-empty, totals and counts exact, each linked list acyclic in arrival order, and every
  quantity entered is open, executed, cancelled, deleted or replaced
  (`OrderBook.Engine.ProcessAll`, `BookFeed.FeedIsRun`, `QuantityConserved`, `BookRep.RepUnique`).
- **Empty slots of the reference table never come back.** So a reference whose window has none
  is refused as a replacement for good. For a window of any length that happens: one order that
  comes and goes in each of its slots is enough, and an add of the same reference is still taken.
  Below a window's worth of entries nothing is refused for want of room
  (`BookFeed.RefusedForGood`, `AddTakesWhatReplaceRefuses`, `AdmittedBelowWindow`,
  `TakenBelowWindow`).
- **The reconciliation table is a map exactly until a completing report clears a slot on another
  order's probe path.** Cancels terminate and repair; that report alone ends the probe
  invariant, and the first one leaves an open order that the table no longer finds. Two ids with
  the same hash are enough for it. Orders are never lost, only hidden (`LedgerRuns.TableIsMap`,
  `FirstCutShows`, `InvariantEnds`, `CollisionHides`, `NeverTwice`, `Ledger.CancelRepairs`).
- **The gateway is a function of its calls, and its books agree at every point of every run**:
  slots, ledger, counters, limiter, positions and exposure, per symbol; a position is what was
  bought minus what was sold. What each call accepts and changes, breaker and halts included, is
  stated in full; no ledger step behind a log append can fail; an order no call is about stays
  open under its symbol with its figures; and the ledger is what the reconciliation table holds
  until a path is cut (`GatewayRuns.DoesKeeps`, `PositionConserved`, `OrderStays`,
  `TableIsLedger`, the methods of `Gateway`).
- **Recovery yields exactly the live orders if and only if the venue has rejected none of them**;
  replay always succeeds and every rejected order comes back
  (`Gateway.ExecutionGateway.RecoveryIsExact`, `GatewayFailures.RejectedOrderComesBack`).
- **The breaker opens exactly at its limits, and its half-open probe budget holds exactly until
  the 32-bit counter wraps** (`Breaker.ClosedBelowLimits`, `OpensAtTheLimit`,
  `BudgetHoldsUntilWrap`).
- **No block is handed out twice** by any number of threads, and an allocation fails only if at
  that moment none is free (`Mempool.NeverHandedOutTwice`, `GivesUpOnlyWhenNoneFree`).
- **Rings are FIFO under any interleaving**, across the wrap of the 64-bit indices, and either
  thread can always finish alone (`RingProtocol.FirstInFirstOut`, `PushAlone`, `PopAlone`).
- **The bridge answers each accepted request exactly once, in order, to its own client, with the
  outcome given for it**, and never needs its deferred slot. From every reachable state the
  execution thread and the listener can finish what is in flight, by steps that each shrink it
  (`BridgeRuns.AnsweredOnceInOrder`, `EveryRequestGetsItsAnswer`, `AskedAndDeliveredOnce`,
  `DeliveredToItsOwn`, `BridgeOutcomes.ResponseAnswersItsRequest`,
  `HttpListener.HttpServer.DrainResponses`).
- **The indicative price pairs the most volume over all integer prices**, not only those
  scanned (`Auction.BestIsOptimal`, `VolumesAre`).
- **The dark pool never breaks price, display, time priority**: when an order is filled, every
  order before it has been filled already or holds out for more than is left at that moment
  (`DarkPool.FillsAreFair`, `DarkPool.DarkPoolEngine.MatchCross`).
- **A hot-standby pair has a leader, and never two in a term, over whole runs**
  (`HotStandby.AlwaysOneLeaderPerTerm`, `TermHasOneLeader`).
- **Its logs agree exactly until a leader appends while it is behind**, and a follower keeps up
  exactly until the first heartbeat, whose index it never commits
  (`StandbyLogs.LogsAgreeExactly`, `LogsSplitAfterTakeover`, `HotStandby.HeartbeatStallsFollower`).
- **Hybrid clocks respect causality over any number of hops** and stay near physical time; a stale
  entry orders nothing
  (`HybridClock.ClocksRespectCausality`, `StampIsNear`, `StaleEntryOrdersNothing`).

Assumptions:

- Shared memory is sequentially consistent; pool tags do not wrap.
- Hash functions are parameters with values inside the table; nothing else is assumed of them.
- I/O is a parameter: whether a log record, an audit record or a packet was written, what the
  clock reads, whether formatting or sending a reply fails.
- An append to the write-ahead log is atomic.
- Client order ids of accepted orders are not reused; the server draws them from a counter
  (luv_http_server.cpp:446-460).
- Book rows are numbered `2 * symbol + side`; sides are 0 and 1.

Where comments and code differ, the code is modelled. The dark pool's comment announces
minimum-quantity checks for maker and taker (luv_dark_pool.hpp:177); only the maker's is
checked. The reconciliation table's completing report clears a slot without the repair that a
cancel makes (luv_safety.hpp:821-849); `LedgerRuns.CollisionHides` gives the runs. The
recovery log gets no record of a venue reject (luv_execution.hpp:852-887). The gateway trips its
breaker without a time after a report that fails to reconcile, so a cool-down counts from 0
(luv_execution.hpp:644-833, `Breaker.TimelessTripIsCold`).

## Model

| member | source | states |
|---|---|---|
| OrderRefMap.Table.Lookup | luv_lob.hpp:226-239 | finds a reference if and only if the map the table stands for has it, and returns that map's location |
| OrderRefMap.Table.CanInsert | luv_lob.hpp:199-221 | true exactly for a live, absent key below the entry limit with an empty slot in its window |
| OrderRefMap.Table.Probe | luv_lob.hpp:146-194 | classifies a key as present, storable at a slot that keeps every key reachable, or without room |
| OrderRefMap.Table.Insert | luv_lob.hpp:146-194 | succeeds exactly when key and location are valid and the key is present or has room; then the map gains the entry, otherwise neither keys nor values change |
| OrderRefMap.Table.Remove | luv_lob.hpp:247-262 | the map loses the key and nothing else; its slot, and only that, becomes a tombstone |
| OrderRefMap.VacatedRoom | luv_lob.hpp:247-262 | a removal leaves every key exactly the room for a replacement that it had |
| OrderRefMap.PutKey | luv_lob.hpp:180-194 | filling a free slot of the window keeps every stored key reachable, unique and indexed |
| OrderRefMap.DropKey | luv_lob.hpp:247-262 | a tombstone keeps every other key reachable |
| OrderRefMap.Missed | luv_lob.hpp:226-239 | a search that ends at an empty slot or at the end of the window proves absence |
| SymbolTable.Table.Insert | luv_decode_itch.hpp:141-161 | succeeds exactly for a valid index with symbols to spare; then the directory maps the ticker to it, overwriting an older entry |
| SymbolTable.Table.Lookup | luv_decode_itch.hpp:165-177 | returns what the directory maps the ticker to, or the not-found value |
| SymbolTable.ScanBound | luv_decode_itch.hpp:141-177 | a probe passes at most as many slots as are occupied, so half the table always suffices |
| SymbolTable.PutNew | luv_decode_itch.hpp:141-161 | placing a new ticker at the end of its probe keeps all tickers reachable and adds exactly that entry |
| PriceLevels.AllocSlot | luv_arena.hpp:92-134 | returns a vacant slot off the list, and fails exactly when the level is full |
| PriceLevels.LinkSlot | luv_lob.hpp:685-703 | the walk from the head gains the slot at its end and is otherwise unchanged |
| PriceLevels.UnlinkSlot | luv_lob.hpp:706-719 | the walk loses exactly that slot; order of the rest is kept |
| PriceLevels.Push | luv_lob.hpp:806-845 | appending keeps list, totals and count exact, and the quantity sum cannot overflow 64 bits |
| PriceLevels.Reduce | luv_lob.hpp:861-890 | a partial reduction keeps the list and lowers slot and total by the same amount |
| PriceLevels.Take | luv_lob.hpp:706-758 | removing keeps list, totals and count exact and blanks the slot; clamping never bites |
| PriceLevels.WalkFollows | luv_arena.hpp:92-134 | following next links from the head visits exactly the linked sequence and stops |
| PriceLevels.PushThenTake | luv_lob.hpp:826-852 | undoing an append restores the level bit for bit |
| BookSpec.StepKeeps | luv_lob.hpp:393-455 | every message keeps the specification book consistent: each order waits once, at its own price, and no queue is empty |
| BookSpec.RunKeeps | luv_lob.hpp:393-455 | so does every run from the empty book |
| BookSpec.ReduceMeans | luv_lob.hpp:861-921 | a reduction short of the open quantity lowers the order by exactly it and leaves every queue; any other takes the order out; all others stand |
| BookSpec.EnterThenLeave | luv_lob.hpp:787-950 | entering an order and taking it out again is the identity |
| BookRep.RepUnique | luv_lob.hpp:611-751 | storage and reference table determine the book |
| BookRep.InsertKeeps | luv_lob.hpp:1069-1111 | inserting an empty level and shifting the locations behind it keeps the same book |
| BookRep.RemoveKeeps | luv_lob.hpp:651-677 | removing an empty level and shifting the locations behind it keeps the same book |
| BookRep.PushRep | luv_lob.hpp:787-854 | appending to a level and registering the reference is entering the order |
| BookRep.TakeRep | luv_lob.hpp:927-950 | unlinking a slot and dropping the reference is the order leaving |
| Arena.Levels.FindLevel | luv_lob.hpp:611-646 | binary search finds the price if and only if the sorted row has it |
| Arena.Levels.InsertAt | luv_lob.hpp:1069-1111 | shifts the levels behind the position and puts a fresh one there |
| Arena.Levels.RemoveAt | luv_lob.hpp:651-677 | closes the gap; the place that falls free behind the row is blank |
| OrderBook.MovedStep | luv_lob.hpp:728-751 | refreshing one active slot moves exactly its own entry of the table |
| OrderBook.Engine.RefreshLevelLocations | luv_lob.hpp:728-751 | after a shift exactly the references of the shifted levels move by one level |
| OrderBook.Engine.InsertLevel | luv_lob.hpp:1069-1111 | adds an empty level in price order, or refuses exactly at maximum depth and changes nothing |
| OrderBook.Engine.RemoveLevelIfEmpty | luv_lob.hpp:651-677 | the book is represented again with no empty level |
| OrderBook.Engine.OnAddOrder | luv_lob.hpp:787-854 | accepts exactly a new reference the table takes when level and slot capacity suffice; then the order queues last at its price, otherwise the book is unchanged |
| OrderBook.Engine.Locate | luv_lob.hpp:760-774 | finds exactly the orders of the book, at an active slot with their price and quantity |
| OrderBook.Engine.OnReduce | luv_lob.hpp:861-921 | an execution or cancel of an open order lowers it by that quantity, in its place, or, when that is all of it, takes it out of book and table; every other order stands; an unknown one changes nothing |
| OrderBook.Engine.OnDelete | luv_lob.hpp:927-950 | the order is gone from book and table and every other stands; an unknown one changes nothing |
| OrderBook.Engine.OnReplace | luv_lob.hpp:962-1055 | once admitted, the table insert cannot fail: the original leaves, and the replacement queues last on the original's symbol and side unless its level is full or the side is at maximum depth |
| OrderBook.Engine.Process | luv_lob.hpp:393-455 | every message, malformed ones included, does to book and table keys what the feed specification says, acceptance included |
| OrderBook.Engine.ProcessAll | luv_consumer.hpp:92-110 | for every tick sequence book and table keys are what the feed specification computes from the ticks |
| BookFeed.FeedIsRun | luv_lob.hpp:393-455 | the book of a feed is the run of the book specification, with every acceptance fixed by the table's keys at that point |
| BookFeed.FeedKeeps | luv_lob.hpp:393-455 | over every feed from the empty book each order waits once, at its own price, and no queue is empty |
| BookFeed.QuantityConserved | luv_lob.hpp:393-455 | over every feed the quantity ever entered is what is open plus what was executed, cancelled, deleted and replaced, and no order with nothing left stays |
| BookFeed.ReductionLowers | luv_lob.hpp:861-921 | what one execution or cancel takes from the open quantity: its quantity, or all that is left of its order |
| BookFeed.AddEnters | luv_lob.hpp:787-854 | an accepted add stands with its price and quantity at the back of its price, in the row of its symbol and side |
| BookFeed.EmptySlotsNeverReturn | luv_lob.hpp:180-262 | over every feed used slots stay used, and at most as many are used as entries were made |
| BookFeed.RefusedForGood | luv_lob.hpp:199-221 | a reference without an empty slot in its window is refused as a replacement after every further feed |
| BookFeed.AdmittedBelowWindow | luv_lob.hpp:199-221 | with fewer entries ever made than a window holds, exactly live, absent references below the entry limit are admitted |
| BookFeed.TakenBelowWindow | luv_lob.hpp:146-194 | with fewer orders in the book than a window holds, an add is taken exactly if its reference is live and the entry limit not reached |
| BookFeed.AddTakesWhatReplaceRefuses | luv_lob.hpp:146-221 | for every window: once an order has come and gone in each slot of a window, a reference of that window is taken by an add and refused as a replacement, then and after every further feed |
| BookFeed.ComesAndGoes | luv_lob.hpp:146-262 | an order added to its empty home slot and deleted leaves a tombstone there and an empty book |
| OrderBook.Engine.BestPrice | luv_lob.hpp:462-473 | the greatest price among open bids, the least among open asks, that of some open order; 0 for an empty side |
| OrderBook.Engine.Depth | luv_lob.hpp:497-516 | the open quantity at the best n prices: every price left out is worse, lower for bids and higher for asks |
| OrderBook.LevelQty | luv_lob.hpp:497-516 | a level's total is the quantity of the orders queued at its price |
| Ledger.StopIsFirst | luv_safety.hpp:869-888 | the probe passes no slot that is free or holds the id |
| Ledger.FoundExact | luv_safety.hpp:869-877 | under the probe invariant an id is found exactly when open, with its remaining quantity |
| Ledger.ClearedFindable | luv_safety.hpp:821-835 | after a slot is cleared an order stays findable if and only if its probe path avoids that slot |
| Ledger.ReseatMeasure | luv_safety.hpp:890-903 | each re-insertion that moves an entry shrinks the sum of probe distances, which is why the loop ends |
| Ledger.RepairStep | luv_safety.hpp:890-903 | one turn of the loop keeps all entries but those still ahead findable |
| Ledger.RepairRestores | luv_safety.hpp:890-903 | from a table with another free slot the loop restores the probe invariant and keeps every order |
| Ledger.CircleRestores | luv_safety.hpp:890-903 | so does the loop on a table that was full, where it may go round |
| Ledger.CancelRepairs | luv_safety.hpp:841-849 | cancelling a present order, full table or not, keeps every other order findable and unchanged |
| Ledger.RegisterKeeps | luv_safety.hpp:801-810 | registration finds a slot exactly for a new id with space left, and adds exactly that order |
| Ledger.ClearedSound | luv_safety.hpp:821-835 | clearing a slot keeps the probe invariant if and only if no other order's probe path crosses it |
| Ledger.ReinsertKeeps | luv_safety.hpp:890-903 | on any table without duplicates, however broken, the repair loop loses and alters no order |
| Ledger.SettledStays | luv_safety.hpp:890-903 | on a table that meets the probe invariant the repair loop changes nothing |
| LedgerRuns.ActsAsMap | luv_safety.hpp:801-849 | an operation on an order that is not hidden acts as on the map of open orders, whatever else is hidden |
| LedgerRuns.NoneLost | luv_safety.hpp:801-849 | no operation loses or alters another order, and an id gets a second entry exactly when it is registered while hidden |
| LedgerRuns.CancelOfZero | luv_safety.hpp:841-849 | cancelling id 0 succeeds exactly if a slot is free and changes no order |
| LedgerRuns.SoundIffNoneHidden | luv_safety.hpp:869-877 | the probe invariant holds if and only if every open order is found |
| LedgerRuns.InvariantEnds | luv_safety.hpp:801-849 | an operation ends the probe invariant if and only if it is a completing report that clears a slot on another order's path |
| LedgerRuns.SoundIffAnswers | luv_safety.hpp:801-849 | the table gives the map's answer to every operation but the cancel of id 0 if and only if it meets the probe invariant |
| LedgerRuns.CountFollows | luv_safety.hpp:801-851 | the counter moves with the number of open orders, but for cancels of id 0 |
| LedgerRuns.StaysWhole | luv_safety.hpp:801-851 | one entry for each order and a right counter are kept by everything but registering a hidden id |
| LedgerRuns.TableIsMap | luv_safety.hpp:801-849 | in every run, until a report first cuts another order's path, the table is the map run and gives its answers |
| LedgerRuns.FirstCutShows | luv_safety.hpp:821-835 | after the first such report the orders are still right, but replacing some open order is refused |
| LedgerRuns.CollisionHides | luv_safety.hpp:801-835 | for every hash and capacity: registering two ids of the same hash and completing the first is such a run, and the second order is hidden |
| LedgerRuns.NeverTwice | luv_safety.hpp:801-849 | in every run that registers no hidden id, each order has one entry and is hidden exactly while a free slot lies on its path |
| LedgerRuns.OrdersStay | luv_safety.hpp:801-849 | an order keeps its entry and quantity through any operations on others |
| LedgerRuns.NewIdsSuffice | luv_safety.hpp:801-810 | ids that are never reused rule out the registration of a hidden id |
| Reconciliation.ReconciliationLedger.Register | luv_safety.hpp:801-810 | on any table takes exactly a positive quantity for an id not found, with a slot free; what that means for the open orders is stated for every whole table |
| Reconciliation.ReconciliationLedger.Replace | luv_safety.hpp:812-819 | sets the remaining quantity of exactly a found order; on a whole table it acts as on the map or, for a hidden order, is refused |
| Reconciliation.ReconciliationLedger.Apply | luv_safety.hpp:821-835 | accepts a fill exactly within the remaining quantity of a found order; the open orders change as in the map, and the table stays sound exactly if no other path is cut |
| Reconciliation.ReconciliationLedger.Cancel | luv_safety.hpp:841-849 | for every id, 0 included: removes exactly a found order, keeps every other and the probe invariant |
| Reconciliation.ReconciliationLedger.ReinsertCluster | luv_safety.hpp:890-903 | the loop terminates on every table and computes the re-insertion function |
| Reconciliation.ReconciliationLedger.FindOrEmpty | luv_safety.hpp:879-888 | returns the first slot of the probe that holds the id or is free |
| Reconciliation.ReconciliationLedger.Find | luv_safety.hpp:869-877 | returns the slot the probe ends at if it holds the id |
| Risk.AcceptedIsSafe | luv_execution.hpp:219-295 | after an accepted intent has been reserved, position and exposure fit in 64 bits and the position is within its limit |
| Risk.PassesExactlyWithinLimits | luv_execution.hpp:219-295 | conversely the overflow guards refuse nothing: an intent passes exactly when, in unbounded arithmetic, quantity, notional, price band, resulting position, exposure and order count are within their limits |
| Risk.CollarIsBand | luv_execution.hpp:257-266 | the collar is the percentage band around the reference as long as the product does not wrap |
| Risk.RejectsExplain | luv_execution.hpp:281-293 | there is a reject reason if and only if the intent is refused, and each reason is given exactly for the limit it names |
| Risk.SignedQtyDeltaIs | luv_execution.hpp:177-180 | the mask trick negates for sells and is the identity for buys, on every 64-bit word |
| Risk.DeltaIsSigned | luv_execution.hpp:177-180 | a buy adds its quantity to the position and a sell takes it away |
| Risk.AbsI64Is | luv_execution.hpp:182-186 | the shift trick is the absolute value on every 64-bit word |
| OpenOrders.OpenKeeps | luv_execution.hpp:947-978 | a new order in a free slot keeps ids unique and the open-order map exact |
| OpenOrders.CloseKeeps | luv_execution.hpp:725-782 | closing or blanking a slot removes exactly that order |
| OpenOrders.MoneyStep | luv_execution.hpp:973-991 | a slot change with matching risk updates keeps position, exposure and count conserved |
| OpenOrders.PositionIs | luv_execution.hpp:947-991 | a symbol's position is what its buys have filled and still rest minus what its sells have; its exposure is what was traded and what rests, at their prices |
| GatewayState.AcceptKeeps | luv_execution.hpp:947-978 | acceptance keeps slots, ledger, counts, limiter and money in agreement |
| GatewayState.PartFillKeeps | luv_execution.hpp:692-717 | a partial fill moves quantity from open to filled without changing position or exposure |
| GatewayState.LastFillKeeps | luv_execution.hpp:692-717 | a final fill, also one short of the quantity, releases what stays unfilled |
| GatewayState.AmendKeeps | luv_execution.hpp:784-833 | a replace exchanges the old open amounts for the new |
| GatewayState.SlotFacts | luv_execution.hpp:644-887 | a live slot has a nonzero id, positive quantity and its ledger entry, so no ledger step after a log append can fail |
| GatewayState.LogStep | luv_recovery.hpp:136-201 | appending the record of a change keeps the log replaying to the orders it stands for |
| GatewayState.LogStepBeside | luv_recovery.hpp:136-201 | so it does when rejected orders stand beside the open ones in the log |
| GatewayState.RejectBeside | luv_execution.hpp:852-887 | a reject moves an order from the open to the rejected ones without a record |
| GatewayState.ReplayBringsBackRejects | luv_recovery.hpp:166-263 | replay lists the open orders if and only if none was rejected, and lists every rejected one |
| GatewayState.RecoveryListsOpenOrders | luv_recovery.hpp:166-263 | a log that replays to the open orders lists exactly them |
| GatewayRuns.DoesKeeps | luv_execution.hpp:441-887 | every submission and report keeps slots, ledger, limiter, counters and money in agreement, and the ledger equal to the map run of its operations |
| GatewayRuns.SubmitMeans | luv_execution.hpp:441-556 | which submissions are accepted, exactly; what is reserved, halted, counted and recorded with the breaker either way; no other order or symbol changes |
| GatewayRuns.ExecutionMeans | luv_execution.hpp:644-723 | which executions are booked, exactly, and the effect on order, position, exposure, breaker and halt |
| GatewayRuns.CancelMeans | luv_execution.hpp:725-782 | which cancels are booked, exactly, and the effect on order, position, exposure, breaker and halt |
| GatewayRuns.ReplaceMeans | luv_execution.hpp:784-833 | which replaces are booked, exactly, and the effect on order, position, exposure, breaker and halt |
| GatewayRuns.RejectMeans | luv_execution.hpp:852-887 | which rejects end an order, exactly, and how symbol and breaker count them |
| GatewayRuns.LedgerHasRoom | luv_execution.hpp:504-511 | a rate limiter no larger than the table leaves room for every order it lets through |
| GatewayRuns.FreeSlotFound | luv_execution.hpp:512-518 | below the order limit there is a free slot, so reserving one after the capacity check cannot fail |
| GatewayRuns.OthersStand | luv_execution.hpp:441-887 | a call leaves every order but its own open, under its symbol, with its figures |
| GatewayRuns.OrderStays | luv_execution.hpp:441-887 | so does any stretch of a run without a call about the order |
| GatewayRuns.PositionConserved | luv_execution.hpp:441-991 | at every point of every run, per symbol, position is bought minus sold and exposure the value of both, over fills and open rests, and the order counter counts the open slots |
| GatewayRuns.StatusTells | luv_execution.hpp:692-833 | in every run from blank slots a slot's status tells whether its order has been filled at all, and none is overfilled |
| GatewayRuns.TableIsLedger | luv_safety.hpp:793-906 | run over the gateway's ledger operations the table holds its ledger, answers and finds as it does, as long as no report has cut a path |
| Gateway.ExecutionGateway.constructor | luv_execution.hpp:406-418 | configuration, blank slots, zero risk, closed breaker |
| Gateway.ExecutionGateway.TryBuild | luv_execution.hpp:441-556 | the step of `GatewayRuns` for a submission: accepted exactly when breaker, limiter, risk, order limit, ledger, audit and log all agree; then open under its symbol, the position up by a buy and down by a sell, within limits and 64 bits; otherwise all reservations are as before |
| Gateway.ExecutionGateway.Reserve | luv_execution.hpp:947-978 | the first free slot takes the order and risk counts it; nothing else changes |
| Gateway.ExecutionGateway.Rollback | luv_execution.hpp:980-991 | the slot cleared is the one just reserved, and the reservation goes |
| Gateway.ExecutionGateway.Reconcile | luv_execution.hpp:686-690 | a ledger operation as the map makes it; one that fails halts the symbol and trips the breaker |
| Gateway.ExecutionGateway.BookReport | luv_execution.hpp:686-716 | for an open order the ledger step behind the log append cannot fail |
| Gateway.ExecutionGateway.BookCancel | luv_execution.hpp:760-778 | nor can it for a cancel |
| Gateway.ExecutionGateway.BookReplace | luv_execution.hpp:815-827 | nor for a replace |
| Gateway.ExecutionGateway.ApplyExecution | luv_execution.hpp:644-723 | the step for an execution: books exactly positive fills of open orders of that symbol within their remaining quantity; terminal or complete ones close the order |
| Gateway.ExecutionGateway.ApplyCancel | luv_execution.hpp:725-782 | the step for a cancel: closes exactly an open order of that symbol; a finished one is left alone, anything else distrusted |
| Gateway.ExecutionGateway.ApplyReplace | luv_execution.hpp:784-833 | the step for a replace: sets remaining quantity and price of exactly an open order of that symbol |
| Gateway.ExecutionGateway.ApplyReject | luv_execution.hpp:852-887 | the step for a reject: closes exactly an open order of that symbol, without a log record, and counts the rejection with symbol and breaker |
| Gateway.ExecutionGateway.WriteAhead | luv_execution.hpp:533-549 | a change is logged before it is made, or not made |
| Gateway.ExecutionGateway.RecoveryIsExact | luv_recovery.hpp:166-263 | at every point of every run replay succeeds; it yields exactly the live orders with remaining quantity, price and side if and only if no order was rejected, and every rejected order comes back |
| GatewayFailures.RejectedOrderComesBack | luv_execution.hpp:852-887 | any order a fresh gateway accepts and the venue rejects is listed by recovery although nothing is open |
| GatewayFailures.FilledOrderHidesAnother | luv_execution.hpp:686-690 | a gateway run, two orders of colliding ids of which the first is filled, after which the table cannot find the second, open one |
| Recovery.SwapRemoveLists | luv_recovery.hpp:265-269 | removal by swapping in the last entry drops exactly one order |
| Recovery.EventRefines | luv_recovery.hpp:224-263 | one record acts on the array as on a map, and fails exactly when the map does or capacity is exceeded |
| Recovery.ReplayRefines | luv_recovery.hpp:166-201 | replay succeeds exactly when the map replay does and never exceeds the capacity, and lists the same orders |
| Recovery.RecoveryLedger.Append | luv_recovery.hpp:136-154 | appends exactly one record, next in sequence, or nothing |
| Recovery.RecoveryLedger.Replay | luv_recovery.hpp:166-201 | the loop computes the array replay |
| Recovery.RecoveryLedger.ApplyTo | luv_recovery.hpp:224-263 | one record applied in place |
| Recovery.RecoveryLedger.RemoveAt | luv_recovery.hpp:265-269 | swap-removal in place |
| Breaker.OpenStaysOpen | luv_safety.hpp:677-730 | without a cool-down an open breaker refuses everything until a reset |
| Breaker.QuietUntilCooledDown | luv_safety.hpp:677-730 | nothing is allowed before the latest trip time plus the cool-down |
| Breaker.TimelessTripIsCold | luv_safety.hpp:625-730 | after a trip without a time requests pass exactly once the clock has reached the cool-down, however recent the trip |
| Breaker.ProbeCounter | luv_safety.hpp:677-730 | in a half-open episode the 32-bit counter counts every request |
| Breaker.EpisodeBudget | luv_safety.hpp:677-730 | how many requests of an episode pass, exactly, for any number of requests: one budget per round of the 32-bit counter |
| Breaker.BudgetHoldsUntilWrap | luv_safety.hpp:677-730 | an episode lets more than its budget pass if and only if its requests exceed 2^32 |
| Breaker.WrapExceedsBudget | luv_safety.hpp:677-730 | an episode of 2^32 or more plain requests goes beyond its budget |
| Breaker.EpisodeEdges | luv_safety.hpp:583-609 | an episode starts only after the cool-down, with its opening request as first probe, and any failure in it reopens the breaker at that time |
| Breaker.ClosedBelowLimits | luv_safety.hpp:583-623 | in every run of reports and requests from the start, as long as failures and rejections in a row stay below their limits, the breaker is closed, counts them exactly and lets every request through |
| Breaker.OpensAtTheLimit | luv_safety.hpp:583-609 | the report that first reaches a limit is a failure or rejection, and opens the breaker at its time |
| Breaker.RateCounts | luv_safety.hpp:677-730 | in a rate window the first `maxRate` requests pass and are counted |
| Breaker.RateOpens | luv_safety.hpp:677-730 | the next request is refused and opens the breaker, if and only if the limit is not 2^32 - 1 |
| Breaker.SuccessesClose | luv_safety.hpp:611-639 | a half-open breaker closes, counters cleared, with the last of the successes it needs and not before |
| CircuitBreakers.CircuitBreaker.Allow | luv_safety.hpp:677-730 | the method is one step of that state machine |
| CircuitBreakers.CircuitBreaker.RecordFailure | luv_safety.hpp:583-597 | the method is one step of that state machine |
| CircuitBreakers.CircuitBreaker.RecordRejection | luv_safety.hpp:599-609 | the method is one step of that state machine |
| CircuitBreakers.CircuitBreaker.RecordSuccess | luv_safety.hpp:611-623 | the method is one step of that state machine |
| CircuitBreakers.CircuitBreaker.Reset | luv_safety.hpp:631-639 | the method is one step of that state machine |
| Mempool.AllocSwapStep | luv_mempool.hpp:26-43 | a successful swap takes the first free block, whatever happened since the head was read |
| Mempool.FreeSwapStep | luv_mempool.hpp:46-68 | a successful swap puts the block at the front of the free chain |
| Mempool.RunInv | luv_mempool.hpp:16-68 | in every interleaving the free chain is acyclic and every block has one place |
| Mempool.NeverHandedOutTwice | luv_mempool.hpp:26-43 | an allocated block was owned by nobody and on its way nowhere |
| Mempool.BlocksAccountedFor | luv_mempool.hpp:16-68 | every block is free, owned or being returned, and exactly one of these |
| Mempool.ExhaustedMeansNoneFree | luv_mempool.hpp:26-43 | whenever the head is empty, every block is owned or on its way back |
| Mempool.GivesUpOnlyWhenNoneFree | luv_mempool.hpp:26-43 | an allocation that fails read an empty head: at that moment every block was owned or on its way back |
| Mempool.LoadedGoesOn | luv_mempool.hpp:26-43 | an allocation that read a block at the head does not give up on that reading |
| Mempool.AllocatesAlone | luv_mempool.hpp:26-43 | a thread left alone gets the first free block in three steps, or nothing if there is none |
| Mempool.ReturnsAlone | luv_mempool.hpp:46-68 | and puts a block it owns at the front of the free chain |
| RingIndex.SizeDivides | luv_net_ring.hpp:21-23 | a power-of-two size divides the 64-bit index range |
| RingIndex.MaskOfWrap | luv_net_ring.hpp:37-37 | wrapping before masking changes no slot |
| RingIndex.WrapSub | luv_net_ring.hpp:33-33 | the difference of wrapped indices is the true occupancy |
| RingProtocol.WriteIsClear | luv_net_ring.hpp:36-38 | the producer never writes a slot holding an unread or staged item, however old its view of the tail |
| RingProtocol.StepKeeps | luv_net_ring.hpp:28-59 | every load, slot access and store keeps the ring invariant |
| RingProtocol.FirstInFirstOut | luv_net_ring.hpp:28-59 | in every interleaving what was received is a prefix of what was sent, at most a ring is unread, and equal indices mean all is received |
| RingProtocol.BurstSizes | luv_consumer.hpp:33-49 | a push is refused only when the ring was full, a pop only when it was empty, and bursts are cut to what fits |
| RingProtocol.PushAlone | luv_net_ring.hpp:28-42 | from every reachable state a producer left alone sends as much of its batch as there is room for |
| RingProtocol.FinishPush | luv_net_ring.hpp:28-42 | a burst under way can always be finished by the producer alone, and publishes all it was cut to |
| RingProtocol.PopAlone | luv_net_ring.hpp:45-59 | a consumer left alone receives what is unread, up to what it asks for |
| RingProtocol.FinishPop | luv_net_ring.hpp:45-59 | a read under way can always be finished by the consumer alone |
| PacketRing.BurstIsRepeatedPush | luv_net_ring.hpp:28-42 | a burst equals offering its packets one at a time |
| PacketRing.ZeroCopyPacketRing.BurstEnqueue | luv_net_ring.hpp:28-42 | the queue gains the longest prefix that fits |
| PacketRing.ZeroCopyPacketRing.BurstDequeue | luv_net_ring.hpp:45-59 | the oldest packets come out in order |
| Bridge.ReleaseUndoesReserve | luv_http_server.cpp:469-487 | giving back an id just reserved restores the table |
| Bridge.ReleaseDrops | luv_http_server.cpp:479-487 | a release frees exactly that id |
| BridgeClients.RefusalLeavesNoTrace | luv_http_server.cpp:776-836 | a request that is not queued gives back the buffer and the id slot; only the error reply and the used id remain |
| BridgeSystem.FlightFits | luv_http_server.cpp:279-326 | the outstanding table bounds what is in flight by the response slots |
| BridgeRuns.StepKeeps | luv_http_server.cpp:279-326 | every step of listener and execution thread keeps the invariant |
| BridgeRuns.AnsweredOnceInOrder | luv_http_server.cpp:279-326 | responses come back once per accepted request, in request order, and all of them once nothing is in flight |
| BridgeRuns.WorkIsEnabled | luv_http_server.cpp:279-326 | while a request is in flight, taking it, answering it or draining its response is possible |
| BridgeRuns.WorkFalls | luv_http_server.cpp:279-326 | each of these shrinks what is left to do, and no step but a dispatch adds to it or accepts a request |
| BridgeRuns.EveryRequestGetsItsAnswer | luv_http_server.cpp:279-326 | every run extends to one in which every accepted request has been answered |
| BridgeRuns.NeverDeferred | luv_http_server.cpp:287-326 | at most eight requests are in flight and the deferred slot stays empty |
| BridgeRuns.DeliveredToItsOwn | luv_http_server.cpp:974-992 | a response reaches only the connection that asked; a waiting client's request is in flight |
| BridgeRuns.WaiterIsServed | luv_http_server.cpp:974-992 | the client waiting for the response at the head gets it |
| BridgeRuns.AskedAndDeliveredOnce | luv_http_server.cpp:22-33 | over a whole run neither the connection that asked under an id nor the one it was delivered to ever changes, so ids are asked and delivered once |
| BridgeRuns.OneBodyOwner | luv_http_server.cpp:489-509 | at most one client owns the positions buffer, and one waiting for positions does |
| BridgeOutcomes.ResponseAnswersItsRequest | luv_http_server.cpp:279-326 | in every run each response carries the outcome that was given for the request of its id, and that request is, command and order, what the connection on record asked for |
| BridgeOutcomes.IdAnsweredOnce | luv_http_server.cpp:279-326 | no two steps of a run answer the same id |
| BridgeOutcomes.RequestsInOrder | luv_http_server.cpp:273-326 | in every run the execution thread takes orders and requests exactly as they were put in: none lost, repeated, changed or overtaken |
| BridgeOutcomes.AcceptedExactly | luv_http_server.cpp:776-836 | in every reachable state a request is accepted if and only if ids have not run out, the queue has a place, fewer than eight are in flight and, for positions, nobody has the buffer |
| BridgeOutcomes.WaitsUntilServed | luv_http_server.cpp:974-1007 | over every run a client waits, for the same request, exactly until its response is drained, its deadline passes or its connection closes |
| BridgeOutcomes.RepliesAtOnce | luv_http_server.cpp:725-836 | submitted orders, bad requests and refused ones are answered at once, and no other client changes |
| BridgeOutcomes.ExpiryReplies | luv_http_server.cpp:992-1007 | a client past its deadline is told, or dropped if it was being sent a reply |
| BridgeOutcomes.DrainReplies | luv_http_server.cpp:974-990 | draining a response answers the client waiting for it and no other |
| HttpListener.ExecutionBridge.ProcessOne | luv_http_server.cpp:279-326 | unless a deferred response finds no room, the oldest request is taken and, if not an order submission, its answer owed behind all others; no response is lost and the deferred slot is used only when the queue is full |
| HttpListener.HttpServer.ReserveResponseId | luv_http_server.cpp:469-477 | takes the first free place, or none |
| HttpListener.HttpServer.ReleaseResponseId | luv_http_server.cpp:479-487 | frees the place of the id, and says whether there was one |
| HttpListener.AskListener | luv_http_server.cpp:776-836 | a refused request leaves the listener's invariant as it was, an accepted one is held |
| HttpListener.TakeServes | luv_http_server.cpp:974-992 | a response answers exactly the client waiting for its id |
| HttpListener.HttpServer.AcceptClient | luv_http_server.cpp:536-576 | a new connection takes the first free slot, or none |
| HttpListener.HttpServer.Dispatch | luv_http_server.cpp:776-836 | accepts exactly if an id, an answer place, a queue place and, for positions, the buffer are there; then the client waits under the new id, otherwise it has been told and only the used id remains; no other client changes; the listener's invariant is kept |
| HttpListener.HttpServer.DrainOne | luv_http_server.cpp:977-989 | releases the id and serves the first slot waiting for it; responses that are not ours change nothing |
| HttpListener.HttpServer.DrainResponses | luv_http_server.cpp:974-990 | the loop empties the queue, answers exactly the clients waiting for one of its responses, and frees exactly their ids |
| HttpListener.HttpServer.ExpireClients | luv_http_server.cpp:992-1007 | every client past its deadline is told or, if already being sent a reply, dropped; no other client changes and no id is freed |
| Auction.Steps | luv_auction.hpp:83-170 | buy volume falls and sell volume rises with price, each changing only at limit prices |
| Auction.VolumesAre | luv_auction.hpp:83-170 | the volume bid at a price is that of market orders and of limits at or above it, the volume offered that of market orders and of limits at or below it |
| Auction.LimitPairsMost | luv_auction.hpp:83-170 | every price is matched or beaten by some limit price |
| Auction.BestStep | luv_auction.hpp:83-170 | the running best stays best, ties going to least imbalance, then lowest price |
| Auction.BestIsOptimal | luv_auction.hpp:83-170 | the chosen price pairs the most volume over all integer prices |
| Auction.NoiiClears | luv_auction.hpp:83-170 | the paired quantity is the lesser of both volumes at the reported price, the imbalance what the larger has over, on its side |
| Auction.AuctionCrossEngine.Add | luv_auction.hpp:54-80 | stores exactly positive quantities while there is space |
| Auction.AuctionCrossEngine.ComputeNoii | luv_auction.hpp:83-170 | the reported price pairs as much as any integer price, at least imbalance among the limit prices that do; paired and imbalance quantity and side are those of the orders themselves at that price; without limit orders the price is the reference |
| DarkPool.SortByPriority | luv_dark_pool.hpp:145-168 | a permutation of the candidates in price, display, time order |
| DarkPool.FillStep | luv_dark_pool.hpp:170-200 | one fill keeps quantity conserved and every processed order exhausted or blocked |
| DarkPool.PriorityKept | luv_dark_pool.hpp:92-96 | each fill takes as much as it can; every order with strict priority over the one filled was filled before it or holds out for more than is left at that moment |
| DarkPool.FillsAreFair | luv_dark_pool.hpp:92-203 | when an order is filled, every order with a better price, or equal price and displayed against hidden, or equal in both and earlier, has been filled already or holds out for more than is left |
| DarkPool.NothingLeftToTake | luv_dark_pool.hpp:170-200 | with quantity and room left, every order that still crosses holds out for more than is left |
| DarkPool.DarkPoolEngine.AddOrder | luv_dark_pool.hpp:47-79 | stores exactly positive quantities while there is space |
| DarkPool.DarkPoolEngine.CancelOrder | luv_dark_pool.hpp:81-90 | deactivates one active order of that id, if any |
| DarkPool.DarkPoolEngine.MatchCross | luv_dark_pool.hpp:97-203 | fills sum with the rest to the taker's quantity, each at its maker's price within the taker's limit, not below the maker's minimum, not with the same firm; no order is filled before one with a better price, display or time that could trade; all other orders untouched, count exact |
| HotStandby.DeliverKeeps | luv_raft_sync.hpp:82-108 | delivering any entry ever sent, to either replica, keeps the pair's invariant |
| HotStandby.TimerKeeps | luv_raft_sync.hpp:111-122 | so does a failover at any clock reading |
| HotStandby.AlwaysOneLeaderPerTerm | luv_raft_sync.hpp:50-122 | every reachable state has a leader, never two in one term, and terms at most one apart |
| HotStandby.TermHasOneLeader | luv_raft_sync.hpp:50-122 | over a whole run at most one replica ever leads a term |
| HotStandby.TakeoverNeedsSilence | luv_raft_sync.hpp:111-122 | a replica takes over only when the last entry it made or accepted is older than the timeout |
| HotStandby.SilenceBringsTakeover | luv_raft_sync.hpp:111-122 | a replica that does not lead takes over, in the next term, at exactly those checks made more than 20 ms after its last sign of life |
| HotStandby.NeverHeard | luv_raft_sync.hpp:82-122 | a replica without any sign of life so far counts its silence from time 0 |
| HotStandby.HeartbeatStallsFollower | luv_raft_sync.hpp:50-108 | a replica handed a leader's entries in order applies exactly those before the first heartbeat: a heartbeat takes an index that followers never commit |
| HotStandby.NoHeartbeatNoStall | luv_raft_sync.hpp:82-108 | so it applies all of them if and only if none is a heartbeat |
| HotStandby.EntryIsUnique | luv_raft_sync.hpp:50-79 | over a whole run term and index name at most one entry |
| StandbyLogs.LogIsDense | luv_raft_sync.hpp:50-108 | over every run a log holds as many entries as are committed, each at its own index and made by a leader |
| StandbyLogs.AgreeIffSameTerm | luv_raft_sync.hpp:50-108 | two logs agree at an index if and only if the entries there are of one term |
| StandbyLogs.LogsAgreeExactly | luv_raft_sync.hpp:50-122 | in every run one log is a prefix of the other if and only if no leader has appended while it had committed less than the other replica |
| StandbyLogs.LogsAgreeUntilTakeover | luv_raft_sync.hpp:50-122 | as long as no replica has taken over, one log is a prefix of the other |
| StandbyLogs.LogsSplitAfterTakeover | luv_raft_sync.hpp:50-122 | a run with a takeover after which the logs differ at index 1 and agree at index 2 |
| HotStandbyNode.HotStandbyReplica.LeaderAppend | luv_raft_sync.hpp:50-79 | only a leader appends, at the next index |
| HotStandbyNode.HotStandbyReplica.FollowerApply | luv_raft_sync.hpp:82-108 | stale entries change nothing, newer terms demote, and only the next entry in line is applied |
| HotStandbyNode.HotStandbyReplica.CheckFailover | luv_raft_sync.hpp:111-122 | promotes exactly an overdue replica that does not lead, in the next term |
| HybridClock.ClockRises | luv_multiregion_raft_cluster.hpp:101-151 | a region's clock strictly rises with each entry it makes or accepts, past the accepted one |
| HybridClock.InfluenceOrdersClocks | luv_multiregion_raft_cluster.hpp:101-151 | an entry made after another was made or accepted at the same region has the larger clock |
| HybridClock.ClocksRespectCausality | luv_multiregion_raft_cluster.hpp:101-151 | along every chain of influences, over any regions, terms and hops, clocks strictly increase |
| HybridClock.ClockIsLatest | luv_multiregion_raft_cluster.hpp:101-151 | a new entry's clock is the later of physical time and one past the region's; after an accepted entry the clock is one past the latest of physical, own and received |
| HybridClock.StampIsNear | luv_multiregion_raft_cluster.hpp:101-151 | over every run an entry is stamped at or after its physical time, and ahead of the latest physical time by at most one for each step so far |
| HybridClock.NeverStaleInOneTerm | luv_multiregion_raft_cluster.hpp:130-151 | regions that start in one term, as fresh ones do, reject no delivery as stale |
| HybridClock.StaleEntryOrdersNothing | luv_multiregion_raft_cluster.hpp:130-151 | a run in which a region a term ahead rejects an entry and then makes one with a smaller clock |
| RegionLogs.LogIsDense | luv_multiregion_raft_cluster.hpp:101-151 | over every run of fresh regions a log holds as many entries as are committed, each at its own index, all made by some region |
| RegionLogs.AgreeIffSameOrigin | luv_multiregion_raft_cluster.hpp:101-151 | two regions' logs agree at an index if and only if one region made both entries |
| RegionLogs.AppendsBelowCapacity | luv_multiregion_raft_cluster.hpp:101-128 | a region appends exactly while its log holds fewer than 512 entries |
| RegionLogs.FollowsLastRaise | luv_multiregion_raft_cluster.hpp:130-151 | a region has the term of the last entry that raised it, and that entry's maker for leader |
| HybridClock.MedianIsMajority | luv_multiregion_raft_cluster.hpp:205-214 | the middle of five sorted acknowledgements is the greatest index three regions have |
| HybridClock.SortAcks | luv_multiregion_raft_cluster.hpp:205-214 | sorted, with the same number of acknowledgements for every index |
| RegionNode.MultiRegionRaftCluster.OnPeerHeartbeat | luv_multiregion_raft_cluster.hpp:79-92 | records one region's acknowledgement and recomputes the majority index |
| RegionNode.MultiRegionRaftCluster.AppendOrderEvent | luv_multiregion_raft_cluster.hpp:101-128 | fails exactly when the log is full, without a change; otherwise the entry carries a clock past the region's and the physical one |
| RegionNode.MultiRegionRaftCluster.ReplicateFromRemote | luv_multiregion_raft_cluster.hpp:130-151 | stale terms change nothing; otherwise the clock moves past the entry even when it does not fit the log |

## Left out

- Floating-point pricing, volatility, microstructure and market-making models, and the feature and inference stages behind the book: they rest on library functions.
- Regulatory calculators and threshold checks: one-branch comparisons that would only add easy members.
- Sockets, HTTP text parsing and formatting, `mmap`, `fsync`, signals, SHA-256, DPDK: foreign code; their outcomes are parameters.
- Memory orders weaker than sequential consistency, and wrap-around of the pool's 32-bit tags.
- The circuit breaker under concurrent callers: its half-open counter reset is a separate store; the model is sequential. Its run-time setters are a fixed configuration here.
- A global position limit over whole runs: cancels and venue replaces move the reserved position after admission.
- Mid price, spread, crossed and stale checks, statistics, timestamps and telemetry: easy members.
- Replace requests towards the venue, stop orders and order queries of the gateway.
- Overflow of the auction's 64-bit sums and of the risk updates made by venue reports, of heartbeat deadlines and of logical clocks: these are unbounded integers.
- A log append whose record is written although its flush fails.
- The gateway class keeps its ledger as a map; `GatewayRuns.TableIsLedger` says for how long the table is that map. What the gateway does after that is not modelled.
- `std::sort` is modelled by insertion sort; only sortedness and the multiset of elements are used.
- The rings of the bridge are bounded queues with atomic push and pop there, which `RingProtocol` justifies.
- BridgeRuns.AnsweredOnceInOrder: one listener on a fresh bridge; responses left over from a stopped listener are only modelled as discarded.
