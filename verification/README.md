# A Dafny model of the flip bot's stateful cores

A trading bot for an online game's auction house and bazaar keeps its books in a handful of small stateful
components: an order tracker that follows an in-game window, a filter that drops duplicate offers, a pause
protocol, a purchase ledger, profit series with a debounced writer, and the scanners and codecs that feed them.
This project models those components and proves what they keep over every run and every interleaving.

Operations that change state in the original are methods on classes or loops over variables here, each proved
against a specification function. The theorems are about those functions and about runs of them. Where several
threads take part, a component is a state machine whose steps are the original's critical sections and atomic
operations, and the theorems hold for every order of the steps. Times are parameters.

| file | what it holds |
|---|---|
| `BazaarOrders`, `BazaarBook`, `BazaarReconcile`, `BazaarTracker` | the bazaar order tracker: per-key meaning, refinement of a map over runs, reconciliation, and the tracker itself |
| `BuyCosts` | the weighted-average buy-cost table |
| `SeenFlips` | the duplicate filter behind all flip sockets |
| `BazaarPause` | the countdown pause and its resume watcher |
| `FlipClock` | the sell clock of bought flips across restarts |
| `FlipLedger`, `FlipRuns`, `FlipFailures` | the attribution of profit to sales: the handlers' sections, runs of them with restarts, and the runs in which it fails |
| `BzList` | the `/cofl bz l` line parsers and accumulators |
| `ProfitSeries`, `Persistence` | the bounded profit series, the session view, and the background writer |
| `BanText`, `BanAge`, `BanNotify` | from a disconnect message to the announcement of a recent ban |
| `OwnListings` | item-name normalisation and the memory of own listings |
| `VarInt` | the VarInt codec and packet framing |
| `Text`, `Wrappers` | string operations and result types the others use |

## What turned out conditional

Six promises do not hold of the code for every input. For each the failing inputs are shown and the exact
condition is proved.

- A purchase can be attributed a profit twice, through a sale under an auction id the ledger still holds. Either the
  cleanup of the sale stops at the auction-id entry and leaves the name entry to a second sale
  (`FlipFailures.ShortCleanupAttributesTwice`); `FlipRuns.CleanupIsHarmlessExactly` says when it does not, over all
  continuations. Or the sale was found in the tracker under another id, which leaves the purchase's own id entry to a
  second sale (`FlipFailures.ClashAttributesTwice`); `FlipRuns.AttributionExact` says when such a sale is right.
- A purchase can also be attributed twice through a restart. A rest break waits for no handler and does not flush the
  debounced ledger writer, and other restarts do not even save the tracker: `BreakInsideSaleAttributesTwice`,
  `BreakBeforeLedgerWriteAttributesTwice` and `RestartWithoutSaveAttributesTwice` are such runs.
  `FlipRuns.RestartAfterRunExactly` proves, for a restart at any point of a run, that all later attributions are right
  exactly when both files agree with the prices the process itself holds; `WrittenLedgerAgrees`,
  `UntouchedTrackerAgrees` and `QuietRestartIsHarmless` say when they do: no handler at work, the writer idle, and no
  item the tracker file restores bought or sold since its snapshot.
- A countdown that arrives between a resume watcher's last deadline read and its store loses its pause
  (`BazaarPause.PauseCanBeLost`); `WindowKeptExactly` says which countdowns keep their window on every continuation.
- A comment in `src/webhook.rs` (lines 1688-1691) says `Debug` escapes all non-ASCII characters, so that reading
  bytes as characters is safe. `Debug` leaves printable non-ASCII characters alone, and the extractor splits them
  into their UTF-8 bytes (`BanText.AccentIsSplit`); control characters come back as their escapes. Whatever `Debug`
  takes for printable, a string comes back exactly when it is all printable ASCII and line breaks
  (`BanText.OnlyPlainSurvives`).
- Scheduling a snapshot after dropping the lock, as the order tracker does, can leave an older state on disk, for any
  two different states (`Persistence.UnlockedSchedulingCanGoStale`). `UnlockedConvergesExactly` says when the latest
  state ends up there, and `OneAtATimeConverges` that it does while recorders do not overlap. Under the mutex, as in
  the profit tracker, it always does (`DiskConverges`).
- A saved profit series longer than 9997 points is still over the bound of 5000 after the next point
  (`ProfitSeries.PushBoundsExactly`).

## Model

Where a member spans several places the row cites the central one. The ledger's members also cover the fee
(`src/main.rs`, lines 163-171), the ledger key (951-960), the arrival of a flip (4157-4165) and the restarts
(1022-1063, 1331-1341, 2403, 6616, 6719), the writer's the recorders in `src/profit.rs` (131-168, 277-282), and the
framing's the status read (171-177). Colour codes are removed as in `src/utils/string.rs` (47-61).

| member | source | states |
|---|---|---|
| Text.ColorRemoved | src/utils/string.rs:47-61 | ordinary text stays; a section sign, in either form, goes with the character behind it, if there is one |
| Text.AsciiSpaces | src/bazaar_tracker.rs:458-460 | of the ASCII characters, space, tab, line feed, vertical tab, form feed and carriage return are trimmed |
| BazaarOrders.SharedKey | src/bazaar_tracker.rs:458-460 | two orders fall under one key exactly when they are of one side and their names, outer white space dropped, have the same length and agree at every position up to ASCII letter case |
| BazaarOrders.FillOfKey | src/bazaar_tracker.rs:132-145 | filling marks the newest open order of its own key's list and changes no other key's list |
| BazaarOrders.RemoveOfKey | src/bazaar_tracker.rs:149-161 | removing takes, and returns, the newest open or filled order of its own key's list, and changes no other key's list |
| BazaarOrders.DropStaleOfKey | src/bazaar_tracker.rs:202-216 | dropping stale orders acts on every key's list separately |
| BazaarOrders.DropStaleKeepsYoung | src/bazaar_tracker.rs:202-216 | exactly the orders placed less than the given age ago remain, each in its place, whatever stands before and after it |
| BazaarOrders.RetainOfKey | src/bazaar_tracker.rs:250-265 | the orders a reconciliation keeps are, for each key, the first ones in tracker order, as many as are shown |
| BazaarOrders.NewOrdersOfKey | src/bazaar_tracker.rs:299-316 | orders added under a shown order's name fall under that order's own normalised key and no other |
| BazaarOrders.DisplayNameIsFirst | src/bazaar_tracker.rs:301-305 | an added order carries the name of the first shown order of its key, as shown |
| BazaarBook.StepRefines | src/bazaar_tracker.rs:101-329 | each of the seven operations on the flat list and the pending table is the same operation on a map from keys to lists |
| BazaarBook.RunsRefine | src/bazaar_tracker.rs:101-329 | over every run the flat list represents the map that the events alone determine |
| BazaarBook.HashOrderIsInvisible | src/bazaar_tracker.rs:291-318 | two runs with the same events agree on every key's list and on the pending table, whatever order the hash map iterates in |
| BazaarReconcile.ReconciledExactly | src/bazaar_tracker.rs:234-318 | after a reconciliation an unsuppressed key is tracked as often as shown and a suppressed one min(old, shown) times; survivors are the first old orders untouched, additions carry the window's amounts and prices from that index on |
| BazaarReconcile.RemovedIsExcess | src/bazaar_tracker.rs:249-266 | the number of removed orders is the sum over all keys of max(0, tracked - shown) |
| BazaarReconcile.ReconcilingAgain | src/bazaar_tracker.rs:234-329 | a second reconciliation with the same window removes nothing, and changes nothing exactly when no key suppressed the first time and tracked less often than shown has lost its suppression |
| BazaarReconcile.SuppressedExactly | src/bazaar_tracker.rs:101-280 | over every run, a reconciliation finds a key suppressed exactly when its cancellation, alone or by clearing an order of it, was asked for less than 30 seconds before |
| BazaarReconcile.CancelledStaysAway | src/bazaar_tracker.rs:273-297 | within 30 seconds of a cancellation no reconciliation adds an order of the key; its list only loses its tail |
| BazaarReconcile.StepKeepsKnown | src/bazaar_tracker.rs:109-329 | no operation gives an order a status other than open or filled |
| BazaarReconcile.RemovalTakesNewest | src/bazaar_tracker.rs:147-161 | over every run from open and filled orders, removing returns and removes the newest order of the key, and nothing when there is none |
| BazaarTracker.CountShown | src/bazaar_tracker.rs:236-243 | the count map holds for every key how many orders are shown |
| BazaarTracker.GroupShown | src/bazaar_tracker.rs:282-289 | the data map holds for every key its shown orders in window order |
| BazaarTracker.FindDisplayName | src/bazaar_tracker.rs:301-305 | the name found is that of the key's first shown order, or the key's own name |
| BazaarTracker.KeepOne | src/bazaar_tracker.rs:250-264 | an order stays exactly while fewer of its key were kept than are shown, and the counts stay true |
| BazaarTracker.RetainShown | src/bazaar_tracker.rs:245-265 | the retain loop keeps the specified survivors, and its counts are those of the survivors |
| BazaarTracker.BazaarOrderTracker.MarkCancelling | src/bazaar_tracker.rs:101-106 | makes the cancel step, so every name that shares the key is suppressed |
| BazaarTracker.BazaarOrderTracker.AddOrder | src/bazaar_tracker.rs:109-129 | makes the add step |
| BazaarTracker.BazaarOrderTracker.MarkOrderFilled | src/bazaar_tracker.rs:132-145 | makes the fill step on the newest open order whose name shares the key |
| BazaarTracker.BazaarOrderTracker.RemoveOrder | src/bazaar_tracker.rs:147-161 | makes the removal step and returns the removed order, whose name shares the key |
| BazaarTracker.BazaarOrderTracker.FindNewest | src/bazaar_tracker.rs:134-139 | the search from the back finds the newest wanted order |
| BazaarTracker.BazaarOrderTracker.ClearAllOrders | src/bazaar_tracker.rs:174-191 | makes the clear step, every cleared key marked pending, and returns how many orders went |
| BazaarTracker.BazaarOrderTracker.RemoveStaleOrders | src/bazaar_tracker.rs:202-216 | makes the staleness step and returns how many orders went |
| BazaarTracker.BazaarOrderTracker.AddMissing | src/bazaar_tracker.rs:299-316 | appends a key's shown entries from the tracked count on, in order |
| BazaarTracker.BazaarOrderTracker.AddUntracked | src/bazaar_tracker.rs:291-318 | visiting the keys in any order brings every key to its reconciled list behind the survivors |
| BazaarTracker.BazaarOrderTracker.ReconcileWithIngame | src/bazaar_tracker.rs:234-329 | makes the reconciliation step, tracked and shown names matched by the shared key, and returns the summed excess of tracked over shown orders |
| BuyCosts.StoredIsRecorded | src/bazaar_tracker.rs:339-365 | over every run an item has a cost exactly when it was recorded since last taken; the amount is the sum of the recorded amounts and price times amount the sum of the recorded costs |
| BuyCosts.OrderDoesNotMatter | src/bazaar_tracker.rs:339-355 | runs whose recordings since the last take are permutations of each other store the same cost |
| BuyCosts.PriceIsBetween | src/bazaar_tracker.rs:344-352 | with a positive amount the stored price lies between any bounds on the prices recorded with a positive amount |
| BuyCosts.TakenPlusStoredIsRecorded | src/bazaar_tracker.rs:339-365 | over every run what was taken plus what is stored is what was recorded, in units and in coins |
| BuyCosts.BuyCostTable.RecordBuyCost | src/bazaar_tracker.rs:339-355 | blends the bought units into the item's entry and touches no other item |
| BuyCosts.BuyCostTable.TakeBuyCost | src/bazaar_tracker.rs:358-365 | removes and returns the item's entry, if any |
| SeenFlips.AcceptKeepsSpaced | src/main.rs:1586-1600 | accepting an id keeps equal ids more than 512 acceptances apart exactly when the id is not in the current window |
| SeenFlips.AdmitMirrors | src/main.rs:1586-1600 | set and queue together remain the window of the last min(512, n) accepted ids |
| SeenFlips.Filtering.AlreadySeen | src/main.rs:1586-1600 | answers whether the id is among the last 512 accepted, accepts it if not, and keeps set and queue the window |
| SeenFlips.TakeConserves | src/main.rs:1614-1786 | a forwarder's receive step neither loses nor doubles an accepted id |
| SeenFlips.TakeOutcome | src/main.rs:1767-1796 | a forwarder's receive step drops a repeat, skips on the finder's socket a flip without an id or without its prices, and holds every other flip for the channel, one without an id from COFL included |
| SeenFlips.OnlyUnpricedGivenUp | src/main.rs:1767-1796 | for every interleaving, every flip sent was on a socket, a finder's with id and prices; an id is given up only for a finder flip without prices, so with all finder flips priced every accepted id is sent or held, once |
| SeenFlips.EveryInterleaving | src/main.rs:1586-1796 | for every interleaving of the forwarders the filter is the window, a drop is always a repeat from the window, equal accepted ids are more than 512 apart, and every accepted id is sent, held or given up unpriced, once |
| BazaarPause.NextKeepsInv | src/main.rs:5138-5219 | every atomic step keeps: one watcher at most, flag set exactly while one has yet to clear it, deadline the latest raised, pauses and resumes alternating; deadline and clock only rise |
| BazaarPause.EveryInterleaving | src/main.rs:5138-5219 | the same from the start, for every interleaving of countdowns, watchers and clock |
| BazaarPause.SleepsExactly | src/main.rs:5186-5198 | having read the deadline a watcher leaves its loop exactly when its clock reading has reached it, and otherwise sleeps for what was left of the window, 20 seconds at most |
| BazaarPause.NeverOversleeps | src/main.rs:5186-5198 | over every run no watcher is ever asleep for more than 20 seconds ahead |
| BazaarPause.PauseCanEnd | src/main.rs:5186-5199 | from every reachable paused state a run without further countdowns clears the flag by the deadline or within 20 seconds |
| BazaarPause.ResumeRespectsSeenWindows | src/main.rs:5184-5198 | when the flag is cleared every countdown raised before the watcher's final deadline read has had its 20 seconds; a window is cut short exactly when the deadline lies ahead |
| BazaarPause.WindowKeptExactly | src/main.rs:5138-5198 | a handled countdown's window is kept on every continuation exactly when it is over or a watcher that will still see it is there |
| BazaarPause.SwapProtects | src/main.rs:5174-5198 | the compare-exchange gives a countdown a watcher unless the one still to clear the flag has left its loop |
| BazaarPause.PauseCanBeLost | src/main.rs:5192-5198 | a run in which the bazaar resumes with a countdown's whole window ahead |
| FlipClock.SurvivorsOfRestart | src/main.rs:808-886 | exactly the entries with a positive buy price and a stamp at most 604,800 seconds old come back, under their keys, with their data |
| FlipClock.ClockBehindStamp | src/main.rs:815-828 | a stamp the restoring clock has not reached counts as now, so the flip is young and its clock starts anew |
| FlipClock.OtherAccountsUntouched | src/main.rs:852-886 | saving one account changes no other account's restore |
| FlipClock.DriftOfRestart | src/main.rs:808-886 | one restart moves an instant back by less than one second or forward by less than two |
| FlipClock.TrackedAcrossRestarts | src/main.rs:808-886 | after k restarts an unsold flip still tracked is the one bought and its instants are off by more than -k and less than 2k seconds, whatever happens to other items in between |
| FlipClock.OnlyYoungBoughtFlipsSurvive | src/main.rs:775-886 | in true time a survivor was bought less than two seconds over a week ago, and a bought flip a second short of a week survives |
| FlipLedger.FeeInNumbers | src/main.rs:163-171 | the fee is 1% of a price below 10 million, 2% below 100 million and 2.5% from there on, rounded down |
| FlipLedger.SharedName | src/main.rs:951-960 | two items are booked under one name exactly when, colour codes removed, their names differ in letter case only |
| FlipLedger.FlipBook.FlipArrived | src/main.rs:4157-4165 | an arriving flip takes its item's tracker entry, unbought |
| FlipLedger.FlipBook.PurchaseTracked | src/main.rs:2953-2977 | a purchase sets the tracked buy price and reports the flip's auction id |
| FlipLedger.FlipBook.PurchaseRecorded | src/main.rs:2989-3001 | a purchase enters the ledger under its auction id and under its item's name, and the ledger is scheduled for saving |
| FlipLedger.LookupTakesOut | src/main.rs:3274-3352 | a sale found in the ledger, under its own key or the item's name, takes out both keys and the id key of the purchase found, and no other entry |
| FlipLedger.FlipBook.SaleLookup | src/main.rs:3274-3352 | a sale removes the tracker entry or, without one, the ledger entries of the purchase it finds under its own key or else the item's name, schedules the changed ledger, and computes its profit |
| FlipLedger.FlipBook.SaleCleanup | src/main.rs:3355-3366 | the cleanup removes the sale's key, or only if that is absent the name key, and schedules the ledger if it changed |
| FlipRuns.BelievedStays | src/main.rs:2953-3366 | no step but a purchase, a sale or a restart changes the price the process holds an item at |
| FlipRuns.CleanupKeepsTruth | src/main.rs:3355-3366 | the cleanup leaves the books true exactly when the sale's auction id does not shadow the name entry |
| FlipRuns.AttributedExactly | src/main.rs:3274-3352 | in a true and complete state a sale is attributed a profit exactly when the tracker holds its item bought, or does not hold it and the item has an unsold purchase or the sale's key an entry |
| FlipRuns.PurchaseThenSale | src/main.rs:2953-3352 | a purchase for a positive price, once recorded, pays for the next sale of its item, with price, cost and fee, whatever came before |
| FlipRuns.ArrivalThenSale | src/main.rs:4157-4165 | an arriving flip hides its item, so that a sale before the next purchase is attributed nothing, and a purchase reports the flip's auction id |
| FlipRuns.AttributionExact | src/main.rs:3274-3352 | a sale is attributed its price less the item's latest buy price less the fee, for an item with an unsold purchase, exactly when its auction id does not answer for a missing or different name entry |
| FlipRuns.StepKeepsTruth | src/main.rs:2953-3366 | every step, a restart with agreeing files included, keeps tracker and ledger true to the unsold purchases and attributes rightly, unless a sale's auction id clashes |
| FlipRuns.AttributionOverRuns | src/main.rs:2953-3366 | over every run of arrivals, purchases, sales, saves, ledger writes and restarts that find agreeing files, every attribution is right, and an item has at most as many attributed sales as purchases |
| FlipRuns.NoAttributionMissed | src/main.rs:2953-3366 | over every good run that loses no purchase, every sale of an item with an unsold purchase and no unbought flip in the tracker is attributed a profit |
| FlipRuns.SavedTrackerComesBack | src/main.rs:808-886 | a save written and then restored brings back exactly the bought flips of accepted age, unchanged |
| FlipRuns.RestartKeepsTruth | src/main.rs:1022-1063 | a restart at any point, handlers in progress included, leaves true books exactly when the tracker file and the ledger file agree with the prices the process held |
| FlipRuns.RestartKeepsComplete | src/main.rs:962-968 | it loses no purchase exactly when the ledger file has a name entry for every item the process held |
| FlipRuns.RestartAfterRunExactly | src/main.rs:1022-1063 | after every good run that lost no purchase, a restart is followed by right attributions only, whatever good run comes next, exactly when both files agree with the process |
| FlipRuns.WrittenLedgerAgrees | src/main.rs:970-975 | with the ledger writer idle, the ledger file agrees exactly when no handler is about to replace or remove a name entry |
| FlipRuns.UntouchedTrackerAgrees | src/main.rs:852-886 | the tracker file agrees when no item it restores was bought or sold since its snapshot was taken |
| FlipRuns.QuietRestartIsHarmless | src/main.rs:1022-1063 | with no handler at work, the ledger writer idle and the restored items untouched since the snapshot, all attributions after a restart are right |
| FlipRuns.CleanupIsHarmlessExactly | src/main.rs:3355-3366 | after the cleanup of a sale all attributions are right, whatever good run comes next, exactly when the sale's auction id does not shadow the name entry |
| FlipFailures.ShortCleanupAttributesTwice | src/main.rs:3359-3361 | a run in which the cleanup stops at the auction-id entry and one purchase is attributed twice through the name entry it leaves |
| FlipFailures.ClashAttributesTwice | src/main.rs:3278-3289 | a run in which a sale found in the tracker leaves the purchase's own id entry in the ledger, and a second sale under that id is attributed again |
| FlipFailures.BreakInsideSaleAttributesTwice | src/main.rs:1022-1063 | a run in which a rest break between a sale's lookup and its cleanup makes one purchase be attributed twice |
| FlipFailures.BreakBeforeLedgerWriteAttributesTwice | src/main.rs:1022-1063 | a run in which a rest break before the debounced ledger write makes one purchase be attributed twice |
| FlipFailures.RestartWithoutSaveAttributesTwice | src/main.rs:6599-6616 | a run in which a restart that saves nothing restores the tracker of before the sale and one purchase is attributed twice |
| BzList.SuffixedNumber | src/main.rs:432-447 | a number with a suffix K, M or B, large or small, is the number in front of it times a thousand, a million or a billion |
| BzList.PlainNumber | src/main.rs:432-447 | a number ending in none of the suffixes is read as it stands |
| BzList.CommasIgnored | src/main.rs:433 | a comma anywhere in a number makes no difference |
| BzList.ToI64Exactly | src/main.rs:446 | the product is cut toward zero to a signed 64-bit number, and to the nearest bound outside that range |
| BzList.LooseLineReadsBack | src/main.rs:455-461 | the profit-only parser reads the trimmed number between the first arrow and the next parenthesis, and nothing from a line without either |
| BzList.DetailAgreesWithProfit | src/main.rs:455-498 | whenever the detailed parser accepts a line the profit-only parser accepts it with the same profit |
| BzList.DetailExactly | src/main.rs:471-498 | a line in pieces is accepted exactly when its amount is digits, its item not blank, its profit a number and its count a 32-bit number, and reads as those pieces with outer white space dropped |
| BzList.DetailReadsBack | src/main.rs:471-498 | the detailed parser reads a well-formed line back as the item, profit and count printed in it, unless the count exceeds 32 bits |
| BzList.HeaderExactly | src/main.rs:4541-4548 | a message starts the list anew exactly when the header text stands somewhere in it |
| BzList.BzListAccumulators.OnMessage | src/main.rs:4539-4565 | a header clears the accumulators, a flip line adds to total, count and, if detailed, its item |
| BzList.TotalsAgree | src/main.rs:4539-4565 | after any messages the total is the sum of the per-item map plus the profits only the looser parser accepts since the header, the map holds each item's own sums, and the line count is that of the lines accepted since |
| ProfitSeries.PushPoint | src/profit.rs:34-50 | the in-place push keeps the first point, every other one after it, and the latest |
| ProfitSeries.SeriesAfterPushes | src/profit.rs:34-50 | after any pushes the series has at most 5000 points, is a subsequence of all points ever in it with its first and latest, and decimation has copied a bounded number of points |
| ProfitSeries.NewTrackerCopies | src/profit.rs:34-50 | from a new tracker all decimations together copy at most two points for each push |
| ProfitSeries.PushBoundsExactly | src/profit.rs:34-50 | a push brings a series within the bound exactly when it held at most 9997 points |
| ProfitSeries.TrackerSeriesBounded | src/profit.rs:131-168 | over any history of recordings both series stay bounded subsequences of what was pushed, first point included |
| ProfitSeries.LoadedGoesOn | src/profit.rs:110-168 | whatever is recorded after loading, each side goes on from the file's total and its series from the file's first point, or from a point of the total at loading if the file had none |
| ProfitSeries.BuildSessionPoints | src/profit.rs:285-304 | the merging loop builds the session view |
| ProfitSeries.SessionShape | src/profit.rs:285-304 | of a time-ordered series the session view has strictly increasing times from the session start and ends at the latest point since then |
| ProfitSeries.SessionReads | src/profit.rs:285-304 | at every time the session view shows the series' last value of that time less the baseline, 0 at the start if there is none, and nothing elsewhere |
| ProfitSeries.SnapshotsAreFaithful | src/profit.rs:225-258 | with a clock that never goes back every snapshot's session series has that shape and those readings, and ends with the reported session total |
| ProfitSeries.TotalsAreSums | src/profit.rs:131-168 | over any history each side's total is what it started with, or was last set to, plus the sum of all profits recorded on that side since; the other side's operations do not enter |
| ProfitSeries.LatestPointIsTotal | src/profit.rs:131-168 | over any history, whatever the clock does, the latest point of each side carries its running total |
| ProfitSeries.ProfitTracker.New | src/profit.rs:88-108 | a new tracker starts both series at zero now |
| ProfitSeries.ProfitTracker.Load | src/profit.rs:110-129 | a loaded tracker keeps the file's series and totals, with the totals as session baselines |
| ProfitSeries.ProfitTracker.RecordAhProfit | src/profit.rs:131-140 | adds the profit to the auction total and pushes the sum |
| ProfitSeries.ProfitTracker.SetAhTotal | src/profit.rs:142-149 | sets the auction total and pushes it |
| ProfitSeries.ProfitTracker.RecordBzProfit | src/profit.rs:151-160 | adds to the bazaar total and pushes it |
| ProfitSeries.ProfitTracker.SetBzTotal | src/profit.rs:162-168 | sets the bazaar total and pushes it |
| ProfitSeries.ProfitTracker.SessionTotals | src/profit.rs:213-222 | in a consistent session the reported totals are the values the two session series end with |
| ProfitSeries.ProfitTracker.Snapshot | src/profit.rs:225-258 | both series, totals and session views |
| Persistence.NextKeepsWriter | src/persistence.rs:80-101 | whatever the recorders' discipline, every step keeps the channel the unreceived messages in order, the writer's value the last received, and the file the last written |
| Persistence.NextKeepsInv | src/persistence.rs:61-101 | every step also keeps each message a true snapshot, the latest state sent or on its way, and under the mutex the messages the committed states in order |
| Persistence.WriterFollowsChannel | src/persistence.rs:80-101 | for every interleaving the writes are an in-order selection of the messages sent, and when all is quiet the file holds the last of them |
| Persistence.DiskConverges | src/persistence.rs:61-101 | for every interleaving of recorders under the mutex the messages are the committed states in order, and when all is quiet the file holds the latest state |
| Persistence.ProfitFileHoldsHistory | src/profit.rs:131-168 | in the end the profit file holds the totals and series of the whole history of recordings |
| Persistence.SendFindsReceiver | src/persistence.rs:61-74 | a recorder about to send never finds the writer gone |
| Persistence.WriterFinishes | src/persistence.rs:80-101 | from every state of a run with no recorder at work the senders can go, and a bounded number of steps later the writer has taken in the rest, written the last message and ended |
| Persistence.DisconnectionEnds | src/persistence.rs:80-101 | a writer that finds the senders gone ends at once, after writing what it had collected, if anything |
| Persistence.UnlockedConvergesExactly | src/bazaar_tracker.rs:392-397 | for every run with scheduling outside the lock, when all is quiet the latest state has been sent and the file holds the last message; when the latest state is unlike all before it, the file holds it exactly when the last message was captured after the last change |
| Persistence.OneAtATimeConverges | src/bazaar_tracker.rs:392-397 | scheduling outside the lock still converges when no recorder starts before the one before it has sent |
| Persistence.UnlockedSchedulingCanGoStale | src/bazaar_tracker.rs:392-397 | for any two different states, a run with scheduling outside the lock that leaves the older one on disk for good |
| BanText.ReadContent | src/webhook.rs:1698-1725 | the inner loop reads one quoted value and stops at its closing quote or the end |
| BanText.ExtractTexts | src/webhook.rs:1692-1730 | the outer loop terminates with all non-empty quoted values in order |
| BanText.ExtractInvertsRender | src/webhook.rs:1692-1730 | for strings of printable ASCII and line breaks, rendered between any prefix-free fillers, exactly the non-empty strings come back in order |
| BanText.OnlyPlainSurvives | src/webhook.rs:1692-1730 | any string, rendered and extracted, comes back exactly when it is all printable ASCII and line breaks, whichever other characters are printed as they are |
| BanText.OneComesBackReread | src/webhook.rs:1692-1730 | what comes back of a string is its rereading: other characters as their escapes, or as one character for each UTF-8 byte |
| BanText.AccentIsSplit | src/webhook.rs:1718-1721 | an accented letter printed as it is comes back as two characters |
| BanAge.ParseBanDuration | src/webhook.rs:1851-1881 | the scanning loop computes the specified parse, early return included |
| BanAge.ParseExactly | src/webhook.rs:1851-1881 | a text parses to the sum of its numbers followed by w, d, h, m or s in either case, up to the largest 64-bit number; to nothing when it has none or one of them exceeds 64 bits |
| BanAge.EveryTextSplits | src/webhook.rs:1851-1881 | every text is such a list of numbers with the characters behind and between them, so the parse is known for all texts |
| BanAge.PrintedTimeReadsBack | src/webhook.rs:1851-1881 | every 64-bit number of seconds printed as days, hours, minutes and seconds parses back |
| BanAge.AgeOnLadder | src/webhook.rs:1833-1911 | a ban of 2,592,000, 7,776,000, 15,552,000 or 31,104,000 seconds is judged its true age exactly until its remainder reaches the length below |
| BanAge.AgeAboveLadder | src/webhook.rs:1898-1911 | above the ladder the age is under a day and completes the remainder to whole days, 64-bit wrap-around included |
| BanAge.RecentExactly | src/webhook.rs:1914-1919 | a ban without a duration, without a number that has a unit, or with one beyond 64 bits is recent; any other exactly when the age its time left gives is within the limit |
| BanAge.RecentExactlyWhenYoung | src/webhook.rs:1914-1919 | a ladder ban that has not reached the rung below is recent exactly when its age is at most the limit |
| BanAge.LooksExactly | src/webhook.rs:1737-1751 | a text counts as a duration exactly when, outer white space dropped, it starts with a digit and holds one of the letters d, h, m and s |
| BanAge.DurationInMessage | src/webhook.rs:1692-1751 | the first duration-like text of a rendered message is the duration picked |
| BanAge.JudgedRecentWhileYoung | src/webhook.rs:1692-1919 | end to end, a ladder ban in a rendered message is judged recent exactly while its age is within the limit |
| BanNotify.BanLedger.Claim | src/webhook.rs:1957-1984 | claims unless this ban is the one reported last for the account, and has it on file afterwards |
| BanNotify.BanLedger.ShouldNotify | src/webhook.rs:1991-2011 | announces a recent ban that is not the one reported last, and files only what is recent |
| BanNotify.NoRepeatedAnnouncement | src/webhook.rs:1957-2011 | over every run of detections, between two announcements of the same ban of an account stands one of another ban of it |
| BanNotify.AnnouncedExactly | src/webhook.rs:1957-2011 | over every run from an empty file, a detection is announced exactly when it is recent and the last ban announced for its account, in whatever letter case, is another one |
| BanNotify.AnnouncedExactlyWhileYoung | src/webhook.rs:1991-2011 | end to end, a ladder ban in a rendered message is announced exactly when its age is within the limit and it is not the ban reported last |
| OwnListings.NormalizeItemName | src/auction_ownership.rs:122-138 | the one-pass normaliser yields the lower-cased maximal runs of ASCII letters and digits, one space apart |
| OwnListings.NormalizeIdempotent | src/auction_ownership.rs:122-138 | normalising twice is normalising once |
| OwnListings.SameNameSameWords | src/auction_ownership.rs:122-138 | names normalise alike exactly when their words are the same |
| OwnListings.ShownNameNormalizes | src/auction_ownership.rs:122-138 | a name shown as words in any letter case, with any decoration and colours around and between them, normalises to the lower-cased words, one space apart |
| OwnListings.ListingStore.NoteOwnListing | src/auction_ownership.rs:154-182 | refreshes the first entry of that name and price or appends one, then prunes |
| OwnListings.EnteredExactly | src/auction_ownership.rs:159-176 | a relisting renews the time of the first entry of its name that holds its price, and only a listing without one adds an entry, which holds the price if it is positive |
| OwnListings.ListingStore.OwnershipOf | src/auction_ownership.rs:198-225 | the verdict over own and fetched auctions, name and price compared |
| OwnListings.VerdictExactly | src/auction_ownership.rs:140-225 | an item is ours exactly when an own or fetched entry has its name, or a name one of which stands in the other with at least four characters, and no price is shown, or the entry holds none, or it holds that price; otherwise it is foreign exactly when anything was listed or fetched |
| OwnListings.NewListingJudged | src/auction_ownership.rs:154-225 | right after a new listing its item is ours, at its price or when no price is shown, and at every price when it was listed without a positive one |
| OwnListings.PruneExactly | src/auction_ownership.rs:184-191 | pruning keeps exactly the entries of the last 604,800 seconds that fewer than 2000 such entries follow |
| OwnListings.PruneKeepsMatches | src/auction_ownership.rs:184-191 | pruning keeps a match exactly when a matching entry is within its week and fewer than 2000 live entries stand after it |
| OwnListings.NoteKeepsExactly | src/auction_ownership.rs:154-191 | after one more listing of the week an entry of a name and price recorded since is held exactly when one was held before or is written now, and the pruning does not bury it, every such entry having 2000 entries within their week standing after it |
| OwnListings.RememberedForAWeek | src/auction_ownership.rs:154-225 | over every run of listings within the week after one of positive price, an entry of its name and price is held exactly when some listing wrote one and no pruning from then on buried it; any item of the same normalised name and that price is then judged ours |
| OwnListings.RememberedByCount | src/auction_ownership.rs:154-225 | an entry with some entries standing after it is judged ours through any further listings of its week that, with those, are fewer than 2000, and afterwards has at most their sum behind it |
| OwnListings.NewListingRemembered | src/auction_ownership.rs:154-225 | a listing of positive price new to the history is judged ours through any 1999 further listings of its week |
| VarInt.EncodedLength | src/hypixel_ping.rs:105-117 | an encoding takes one to five bytes, by the size of the word |
| VarInt.RoundTrip | src/hypixel_ping.rs:105-147 | the reader returns any written 32-bit word and leaves the rest of the stream |
| VarInt.PrefixFree | src/hypixel_ping.rs:105-117 | one encoding is a prefix of another only when the words are equal |
| VarInt.ReadBack | src/hypixel_ping.rs:132-147 | the reader accepts every delimited VarInt of at most five bytes; what it read is the writer's encoding of the result exactly when it has no padding byte and no surplus bit |
| VarInt.ReadIsTerminated | src/hypixel_ping.rs:132-147 | what a successful read consumed is one delimited VarInt of at most five bytes, and everything behind it is unread |
| VarInt.AcceptsExactly | src/hypixel_ping.rs:132-147 | the reader accepts a stream exactly when it begins with a delimited VarInt of at most five bytes |
| VarInt.AsI32Exactly | src/hypixel_ping.rs:146 | the word read is taken as the signed 32-bit number that differs from it by zero or two to the thirty-second |
| VarInt.FailsExactly | src/hypixel_ping.rs:132-147 | the reader fails as too long exactly on five continuation bytes, and for want of bytes exactly when there are only fewer |
| VarInt.UnframeExactly | src/hypixel_ping.rs:171-177 | behind any length word, read as a signed number, the status read fails on a negative one or one above 4,000,000, lacks bytes exactly when fewer follow, and otherwise takes that many and leaves the rest |
| VarInt.UnframeOfFrame | src/hypixel_ping.rs:125-177 | a frame is read back exactly when its payload has at most 4,000,000 bytes |
| VarInt.UnframeAllOfFrameAll | src/hypixel_ping.rs:125-177 | a concatenation of frames is read back as the payload list exactly when all are within the limit |
| VarInt.ByteBuffer.WriteVarint | src/hypixel_ping.rs:105-117 | appends the encoding of the word |
| VarInt.ByteBuffer.WriteString | src/hypixel_ping.rs:119-122 | appends the length and the bytes |
| VarInt.MakeFrame | src/hypixel_ping.rs:125-130 | prefixes a payload with its length |
| VarInt.ByteStream.ReadVarint | src/hypixel_ping.rs:132-147 | the reading loop consumes what the specified decoder consumes, its two errors included |
| VarInt.ByteStream.ReadFrame | src/hypixel_ping.rs:171-177 | reads a length in range and that many bytes, or fails as specified |

## Left out

- Floating point: prices and buy costs are exact reals, so rounding, infinities and NaN are not modelled. The parse of a decimal text in `parse_short_number` is a parameter, and the theorems hold for every such parser.
- Integer widths: profits, totals, amounts and fees are unbounded, so the overflow of a total, of a blended amount or of `price * 25` in the fee is not modelled. Widths that decide results are: VarInt words, ban durations and ages, flip counts, and the bz-list profit cut to 64 bits.
- Letter case and trimming: `to_lowercase` is modelled for ASCII letters only; trimming knows all Unicode white space.
- BazaarReconcile.SuppressedExactly: starts from an empty pending table, which is how every process starts, and reads the clock once for each reconciliation, where the code reads it once for each pending entry.
- FlipRuns.AttributionOverRuns: assumes that no sale comes under an auction id the ledger still holds and that restarts find files that agree with the process; `FlipFailures` shows what happens otherwise. The writer's file operations are whole, so a file cut short by a restart is not modelled, nor is a restart into another account, which finds that account's tracker.
- FlipRuns.AttributionExact: requires that the process knows of every unsold purchase, which holds until a restart loses an unwritten ledger.
- FlipClock.TrackedAcrossRestarts: one time line for the monotone and the wall clock, so clock steps are not modelled, and `Instant::checked_sub` is taken to succeed. A save reads both clocks at one instant and so does a restore; the code reads the wall clock before it takes the lock and the monotone clock afterwards, and for a restore once for each entry, so that waiting adds to the drift.
- ProfitSeries.SnapshotsAreFaithful: assumes a clock that never goes back, and a saved file whose series end at their totals in time order.
- Persistence.DiskConverges: every write succeeds, and the recorders' changes are arbitrary states, of which the profit tracker's are one case. The synchronous mode of the writer, `write_now`, and the realised total that is never persisted are not part of this model.
- BanText.ExtractInvertsRender: covers strings of printable ASCII and line breaks; other characters do not come back, as `OnlyPlainSurvives` shows. Which characters beyond ASCII `Debug` prints as they are is a parameter.
- Lock poisoning: every lock is taken successfully.
- The bazaar handlers around the tracker, the per-item fallback profits, and saving and loading the tracker's files.
- Flip handling after the filter, the command queue, the main command loop, and the island and stall guards.
- The other fields read from a disconnect message (ban id, reason text, permanent and security bans): a ban's identity is a parameter.
- Fetching remote auctions and the persistence of own listings.
- Sockets, HTTP, Discord messages, the web panel, console input, the updater and configuration: input and output around the cores.
