# L3 order-queue estimator — a verified Dafny model

The program (multi_exchange_l3_est) keeps a depth-level order book from a
Binance or Hyperliquid feed. It guesses the individual orders behind each
price level: every level holds a FIFO queue of inferred order sizes, and each
depth update is reconciled against that queue. A sequencing state machine
follows Binance's futures procedure for a local order book. It drops stale
updates, detects gaps through the `U / u / pu` ids and asks for a fresh
snapshot when one appears. The optional clustering view colours resting
orders by a mini-batch k-means over their sizes.

This project models, in Dafny:

- **order_queue.dfy** (`OrderQueue`): one level's queue and the pure `Reconcile` rule of `apply_update`.
- **book.dfy** (`Book`): everything on one `Engine` value:
  - the two book sides as maps from price to queue, with their invariant;
  - `apply_update`;
  - `process_update`;
  - snapshot ingest, buffering and draining;
  - the message loop;
  - the exchange and symbol resets.
- **app.dfy** (`App`): the class `Estimator`, with `MyApp`'s fields.
  - Its methods use the source's `for` and `while let` loops.
  - Each method is proved to move the state exactly as the matching function of `Book`.
- **kmeans.dfy** (`KMeans`): the integer bookkeeping of the clustering:
  - which orders become points;
  - the centroid index selection of `initialize_centroids`;
  - the label renumbering of `fit`;
  - the pairing of labels back with orders in `build_clustered_orders` and `cluster_order_book`.
- **hyperliquid.dfy** (`Hyperliquid`): the conversion of Hyperliquid `l2Book` messages into snapshots and updates, and the `first_message` split of the read loop in `connect`.
- **hyperliquid_sync.dfy** (`HyperliquidSync`): what the sequencing state machine makes of those Hyperliquid messages.
- **exchanges.dfy** (`Exchanges`): the shared record types (`OrderBookSnapshot`, `DepthUpdate`, `ExchangeMessage`, `ExchangeType`) and Rust's integer types.

## Modelling choices

- `Decimal` is an exact `int`. `u64`, `u32` and `i64` are subset types.
- `(time - 1) as i64` is written out as a two's-complement reinterpretation (`AsI64`).
- A `BTreeMap<Decimal, VecDeque<Decimal>>` side is a Dafny `map<int, seq<int>>` in the estimator.
  - In the clustering it is an ascending sequence of `(price, queue)` pairs, because iteration order matters there.
- Every `control_tx.try_send(...)` is recorded by appending to the field `controls`; its result is discarded, as in the source.
- `AppMessage` is the same as `ExchangeMessage`: the feed task forwards each message unchanged.
- `Decimal::from_str` is the parameter `parse: string -> Option<int>`, and `serde_json::from_str` is the parameter `decode`.
- In the clustering, `nearest` is the parameter standing for `closest_centroid` after the mini-batch loop. `order` is the parameter standing for `centroid_indices` as sorted by centroid value.
- The WebSocket is modelled as a sequence of frames.

## Behaviour of the code that the model keeps

- **Decrease without an exact match.** This is not the in-place reading of the heuristic, which would reduce the largest order where it stands and spill any remainder into the next largest. Instead the code does three things:
  - it removes the first largest order;
  - it pushes `largest - change` at the back;
  - it does not iterate, so the pushed value can be zero or negative.
  - `ReconcileMovesLargestToBack` shows that the code and the in-place reading give different queues: `[5, 3, 1]` → 7 gives `[3, 1, 3]`, not `[3, 3, 1]`.
  - `ReconcileCanGoNegative` exhibits a negative order: `[3, 3]` → 1 gives `[3, -2]`.
- **Negative quantities.** Only the bid loop skips them. On the ask side a negative quantity is reconciled or inserted like any other, so ask levels can total a negative amount. The invariant `WellFormed` records this: bid totals are positive, ask totals only non-zero.
- **Resets keep the buffer.** The exchange and symbol resets keep `update_buffer`. Updates received before the reset stay buffered and are replayed after the next snapshot (`ChangeResetsBook`).
- **A snapshot whose `last_update_id` is 0**, taken when the oldest buffered update (if any) has `U > 0`, leaves the estimator buffering every later update until another snapshot arrives (`ZeroTimeSnapshotBuffers`, `ZeroIdSnapshotRefusesLaterStart`). A buffered update with `U = 0` at the front would instead satisfy `U <= 0 <= u` in the drain and sync the book.
- **A negative `pu` skips the gap check** while synced (`ProcessDetectsGap`). For Hyperliquid this happens exactly when the message time exceeds 2^63.
- **Hyperliquid updates and the Binance sequencing.** A Hyperliquid update carries `U = u = time` and its snapshot carries `last_update_id = time`. So after a snapshot at time `t0`:
  - an update from a later message is an initial gap, which requests a refetch;
  - only an update with the same time brings the book in sync (`LaterUpdateRefetches`, `SameTimeUpdateSyncs`).

## Model

| member | source | states |
|---|---|---|
| Exchanges.AsI64 | src/exchanges/hyperliquid.rs:123 | `x as i64` for a `u64`: congruent to `x` modulo 2^64, non-negative exactly when `x < 2^63` |
| OrderQueue.Sum | src/main.rs:680 | `iter().sum()`, defined recursively; its additivity is `SumConcat` |
| OrderQueue.SumConcat | src/main.rs:680 | the total of two runs of orders is the sum of their totals |
| OrderQueue.Max | src/main.rs:686 | `iter().max()` of a non-empty queue; its properties are `MaxIsLargest` |
| OrderQueue.MaxIsLargest | src/main.rs:686 | the maximum of a non-empty queue is an element of it and no element exceeds it |
| OrderQueue.Position | src/main.rs:687-688 | `position`: `None` exactly when the value is absent, otherwise the first index holding it |
| OrderQueue.RPosition | src/main.rs:683 | `rposition`: `None` exactly when the value is absent, otherwise the last index holding it |
| OrderQueue.SumRemove | src/main.rs:684 | removing one order takes exactly its size out of the level total |
| OrderQueue.DecreaseTotal | src/main.rs:681-691 | either branch of a decrease lowers the level total by exactly `change` |
| OrderQueue.Decrease | src/main.rs:681-691 | the decrease rule: remove the last exact match, else the first largest order with `largest - change` pushed back; stated by `DecreaseTotal`, `ReconcileExactMatch`, `ReconcileAbsorbLargest` |
| OrderQueue.Reconcile | src/main.rs:679-700 | the reconciliation of a level's queue with its new total; stated by `ReconcileTotal`, `ReconcileIncrease`, `ReconcileExactMatch`, `ReconcileAbsorbLargest` |
| OrderQueue.ReconcileTotal | src/main.rs:679-700 | after reconciliation the queue totals the new quantity, so it is non-empty for a non-zero quantity |
| OrderQueue.ReconcileIncrease | src/main.rs:692-700 | an increase appends exactly `qty - old_sum` at the back and keeps every earlier order in place; equality is a no-op |
| OrderQueue.ReconcileExactMatch | src/main.rs:681-684 | a decrease matched by an order removes the last matching order; the others keep their order; length drops by one |
| OrderQueue.ReconcileAbsorbLargest | src/main.rs:685-691 | an unmatched decrease removes the first largest order and pushes `largest - change` at the back; length unchanged |
| OrderQueue.ReconcileCanGoNegative | src/main.rs:686-690 | the pushed order can be negative: `[3, 3]` lowered to 1 is `[3, -2]` |
| OrderQueue.ReconcileMovesLargestToBack | src/main.rs:686-690 | the largest order is moved to the back, not reduced in place |
| OrderQueue.ReconcileExamples | src/main.rs:679-700 | `[5, 3]` raised to 11, `[5, 3, 3]` lowered to 8, `[5, 3]` lowered to 6 |
| Book.ApplyEntry | src/main.rs:670-736 | one update entry keeps the side invariant and changes no other price |
| Book.ApplyEntries | src/main.rs:670-706 | the entries of one side applied in list order keep the side invariant |
| Book.EntryOutcome | src/main.rs:673-704 | zero removes the price whether or not present; a skipped negative bid changes nothing; otherwise the level totals `qty`, and a new level is `[qty]` |
| Book.LastEntryDecides | src/main.rs:670-736 | the last acting entry for a price decides it: absent iff its quantity is 0, otherwise totalling it; later entries see earlier results |
| Book.UntouchedLevel | src/main.rs:670-736 | a price no acting entry names keeps its queue or stays absent |
| Book.ApplyEntriesAppend | src/main.rs:670-706 | applying two entry lists in turn is applying their concatenation |
| Book.Initial | src/main.rs:115-133 | a new estimator starts on Binance with an empty, valid book, id 0, unsynced, nothing buffered |
| Book.ApplyUpdate | src/main.rs:669-737 | both sides updated, bids then asks, keeping both side invariants |
| Book.RequestRefetch | src/main.rs:216-217 | the gap reaction: buffer cleared and a `Refetch` control sent; its effect is stated by `ProcessDetectsGap` and `ProcessFirstSync` |
| Book.ProcessUpdate | src/main.rs:206-235 | keeps the invariants; the buffer is kept or emptied; the last applied id never decreases; sync is never lost |
| Book.ProcessDropsStale | src/main.rs:207-209 | an update with `u < last_applied_u` changes nothing |
| Book.ProcessDetectsGap | src/main.rs:211-221 | while synced, `pu >= 0 && pu != last` holds exactly when the book and id are kept, the buffer emptied and a refetch requested |
| Book.ProcessAppliesInSequence | src/main.rs:211-223 | while synced, an update with `pu < 0` or `pu == last` has both sides applied, sets `last := u`, stays synced, buffer and controls kept |
| Book.ProcessFirstSync | src/main.rs:225-234 | while unsynced, becoming synced iff `U <= last <= u`, by applying the update with `last := u`; otherwise buffer emptied and refetch requested |
| Book.ProcessChangesBookOnlyWhenApplied | src/main.rs:222-228 | the book changes only when an update is applied, which sets `last := u` and leaves the engine synced |
| Book.Drain | src/main.rs:262-264 | draining leaves the buffer empty, keeps the invariants and never lowers the last applied id |
| Book.ProcessInOrder | src/main.rs:262-264 | processing a list of updates, stopping at the first refetch, keeps the invariants |
| Book.DrainInOrder | src/main.rs:262-264 | the drain processes the buffered updates oldest first and stops at the first gap |
| Book.LoadLevels | src/main.rs:245-258 | the snapshot rows loaded into a side; stated by `LoadLevelsSingleOrders`, `LoadLevelsKeys`, `LoadLevelsLastRow` |
| Book.LoadLevelsSingleOrders | src/main.rs:245-258 | a loaded side holds only one-order levels of positive size, so it satisfies both side invariants |
| Book.LoadLevelsKeys | src/main.rs:245-258 | a loaded side holds exactly the prices of the positive rows |
| Book.LoadLevelsLastRow | src/main.rs:245-258 | each level is `[qty]` of the last positive row at its price |
| Book.LoadSnapshot | src/main.rs:243-260 | the snapshot's sides replace the book, keeping the invariants |
| Book.IngestSnapshot | src/main.rs:242-265 | after a snapshot the buffer is empty and the last applied id is at least `last_update_id` |
| Book.SnapshotReplacesBook | src/main.rs:242-265 | result is the snapshot's levels with the buffer replayed in FIFO order; with nothing buffered, exactly its levels, id `last_update_id`, unsynced |
| Book.ZeroIdSnapshotRefusesLaterStart | src/main.rs:223-234 | after a snapshot with id 0, an oldest buffered update with `U > 0` is refused: id stays 0, unsynced, the snapshot's levels kept, one refetch requested |
| Book.ReceiveUpdate | src/main.rs:266-271 | receiving an update keeps the invariants |
| Book.ReceiveBuffersUntilSnapshot | src/main.rs:267-268 | while the last applied id is 0 an update is appended to the buffer and nothing else changes |
| Book.Handle | src/main.rs:241-272 | handling one message keeps the invariants |
| Book.HandleAll | src/main.rs:240-274 | handling the pending messages in order keeps the invariants |
| Book.Contains | src/main.rs:306 | `str::contains`: true exactly when the pattern occurs at some offset |
| Book.Reset | src/main.rs:312-315 | a reset gives a valid, empty book |
| Book.SelectExchange | src/main.rs:298-316 | choosing the current exchange changes nothing; choosing another gives a valid state on that exchange |
| Book.SubmitSymbol | src/main.rs:325-339 | submitting the current symbol changes nothing; another one gives a valid state with that symbol |
| Book.ChangeResetsBook | src/main.rs:298-339 | a real change empties the book, zeroes the id, unsyncs, sends the control request, keeps the buffer; the next update is buffered |
| Book.HyperliquidSymbolRule | src/main.rs:305-309 | switching to Hyperliquid maps a symbol containing "usdt" to "SOL" and keeps any other |
| App.Estimator.constructor | src/main.rs:115-133 | the fields start as `Book.Initial` |
| App.Estimator.ApplyUpdate | src/main.rs:669-737 | the fields end as `Book.ApplyUpdate` of the old state |
| App.Estimator.ApplyBids | src/main.rs:670-706 | the bid loop leaves `bids` equal to the entries folded in order, keeping the invariant, nothing else changed |
| App.Estimator.ApplyAsks | src/main.rs:707-736 | the ask loop leaves `asks` equal to the entries folded in order, keeping the invariant, nothing else changed |
| App.Estimator.ProcessUpdate | src/main.rs:206-235 | the fields end as `Book.ProcessUpdate` of the old state |
| App.Estimator.HandleSnapshot | src/main.rs:242-265 | the loading loops and the draining `while let` end as `Book.IngestSnapshot` |
| App.Estimator.DrainBuffer | src/main.rs:262-264 | the `while let` pops and processes the buffer front to back, ending as `Book.Drain` |
| App.Estimator.HandleUpdate | src/main.rs:266-271 | the fields end as `Book.ReceiveUpdate` |
| App.Estimator.HandlePending | src/main.rs:240-274 | the message loop ends as `Book.HandleAll` of the pending messages |
| App.Estimator.SelectExchange | src/main.rs:298-316 | the fields end as `Book.SelectExchange` |
| App.Estimator.SubmitSymbol | src/main.rs:325-339 | the fields end as `Book.SubmitSymbol` |
| KMeans.Positives | src/kmeans.rs:63-64 | the positive quantities of a queue are no more than its orders |
| KMeans.PositivesMembers | src/kmeans.rs:63-64 | exactly the positive quantities of a queue are kept |
| KMeans.BuildClusteredOrders | src/kmeans.rs:200-218 | same prices in the same order, even without positive orders; each entry holds exactly the level's positive quantities in order; labels consumed consecutively |
| KMeans.PairLevel | src/kmeans.rs:208-214 | one level's positive orders paired with the next labels, the counter advanced by their number |
| KMeans.Flatten | src/kmeans.rs:62-70 | the positive quantities of the book, ascending price then queue order; computed by `CollectPoints` |
| KMeans.CollectPoints | src/kmeans.rs:62-70 | the points are every positive quantity, ascending price then queue order |
| KMeans.LabelMapOf | src/kmeans.rs:125-128 | the label map's keys are exactly the entries of `centroid_indices` |
| KMeans.LabelMapInverts | src/kmeans.rs:125-128 | with distinct indices the map sends `centroid_indices[j]` to `j` |
| KMeans.BuildLabelMap | src/kmeans.rs:125-128 | the loop builds the label map |
| KMeans.Relabel | src/kmeans.rs:131 | `*label_map.get(label).unwrap_or(&0)`; its behaviour on a permutation is `RemapIsBijection` |
| KMeans.RemapLabels | src/kmeans.rs:130-132 | every label renumbered in place, with 0 for a label the map lacks |
| KMeans.RemapIsBijection | src/kmeans.rs:117-132 | for a permutation of `0..k` the remap stays in range, is injective, and sends `order[j]` to `j` |
| KMeans.Fit | src/kmeans.rs:58-135 | no labels without a positive order; otherwise one label per positive order, its renumbered nearest centroid |
| KMeans.FitLabelsInRange | src/kmeans.rs:111-132 | with a proper centroid order and nearest indices below `k`, every label is below `k` |
| KMeans.ClusterOrderBook | src/kmeans.rs:173-197 | same prices and positive orders as the book, in order; the label of the i-th positive order is its nearest centroid renumbered through the centroid order |
| KMeans.Insert | src/kmeans.rs:155 | insertion into a sorted sequence stays sorted and adds exactly the element |
| KMeans.SortAscending | src/kmeans.rs:154-155 | the sort is ascending and a permutation of the points |
| KMeans.Step | src/kmeans.rs:157 | `(len - 1) / (k - 1)`, with divisor 1 when `k <= 1`; its effect is stated by `CentroidIndexUnclamped`, `FewPointsCollapse`, `EnoughPointsSpread` |
| KMeans.CentroidIndex | src/kmeans.rs:157-159 | `min(i * step, len - 1)` is a valid index |
| KMeans.InitializeCentroids | src/kmeans.rs:150-168 | exactly `k` centroids, the sorted points at `min(i * step, len - 1)`, each a point, ascending |
| KMeans.PickCentroids | src/kmeans.rs:157-161 | the selection loop picks, for each `i < k`, the sorted point at `min(i * step, len - 1)` |
| KMeans.PickedCentroids | src/kmeans.rs:154-161 | centroids picked that way from the sorted points are points, in ascending order |
| KMeans.CentroidIndexMonotone | src/kmeans.rs:157-161 | the centroid indices never decrease |
| KMeans.CentroidIndexUnclamped | src/kmeans.rs:157-161 | for `i < k` the clamp never takes effect and the first index is 0 |
| KMeans.FewPointsCollapse | src/kmeans.rs:157-161 | with fewer points than clusters every centroid is the smallest point |
| KMeans.EnoughPointsSpread | src/kmeans.rs:157-161 | with at least as many points as clusters the indices strictly increase |
| Hyperliquid.ParseLevel | src/exchanges/hyperliquid.rs:68-73 | a level is kept iff both price and size parse, as `[price, size]` |
| Hyperliquid.ParseLevels | src/exchanges/hyperliquid.rs:67-74 | the filtered levels are no more than the input levels |
| Hyperliquid.ParseLevelsAppend | src/exchanges/hyperliquid.rs:67-74 | parsing distributes over concatenation: order is kept |
| Hyperliquid.ParseLevelsSingle | src/exchanges/hyperliquid.rs:68-73 | one level yields `[price, size]` exactly when both parse |
| Hyperliquid.ParseLevelsIgnoresCount | src/exchanges/hyperliquid.rs:67-74 | the order count `n` has no influence |
| Hyperliquid.SnapshotOf | src/exchanges/hyperliquid.rs:161-181 | the snapshot's id is the message time |
| Hyperliquid.UpdateOf | src/exchanges/hyperliquid.rs:186-211 | every id equals the message time, the symbol is the coin, `pu` is `time - 1` read as `i64` |
| Hyperliquid.ConvertLevels | src/exchanges/hyperliquid.rs:67-74 | the conversion loop builds the filtered levels |
| Hyperliquid.ConvertWsBookToSnapshot | src/exchanges/hyperliquid.rs:62-91 | id = time, bids from `levels[0]`, asks from `levels[1]` |
| Hyperliquid.ConvertWsBookToUpdate | src/exchanges/hyperliquid.rs:93-127 | all ids = time, symbol = coin, `pu = (time - 1) as i64`, bids from `levels[0]`, asks from `levels[1]` |
| Hyperliquid.Emitted | src/exchanges/hyperliquid.rs:154-226 | the messages the read loop sends; stated by `FirstMessageIsSnapshot` and `LaterMessagesAreUpdates` |
| Hyperliquid.Connect | src/exchanges/hyperliquid.rs:154-226 | the read loop sends exactly `Emitted` of the frames |
| Hyperliquid.FirstMessageIsSnapshot | src/exchanges/hyperliquid.rs:154-213 | the first message is the snapshot of the first decoded book, sent iff one decodes; every later message is an update |
| Hyperliquid.LaterMessagesAreUpdates | src/exchanges/hyperliquid.rs:184-213 | after the first book every message is an update with `U = u >= 1` and `pu = (u - 1) as i64` |
| HyperliquidSync.LaterUpdateRefetches | src/main.rs:225-234 | after a Hyperliquid snapshot at `t0 > 0`, a later message's update leaves the book, stays unsynced and requests a refetch |
| HyperliquidSync.SameTimeUpdateSyncs | src/main.rs:225-228 | an update with the snapshot's own time is applied and syncs |
| HyperliquidSync.EarlierUpdateDropped | src/main.rs:207-209 | an update older than the snapshot is dropped |
| HyperliquidSync.ZeroTimeSnapshotBuffers | src/main.rs:266-268 | after a time-0 snapshot every update is only buffered |

## Left out

- Rendering: the egui drawing, bar layout, colours and `get_order_color`, plus all `f32`/`f64` formatting and `to_f64` conversions. This is display code with floating point.
- Concurrency: `fetch_and_stream_loop`, the threads, tokio tasks and both channels. The model only records each attempted `try_send` in `controls`. Whether the capacity-1 control channel accepts a request is not modelled.
- The floating-point part of k-means: `normalize`, `closest_centroid`, the random mini-batch loop, and the `MiniBatchKMeans` state holding the centroids. These are `f64` arithmetic and `rand`. `Fit` takes the resulting nearest-centroid function and the sorted centroid order as parameters. `InitializeCentroids` sorts the integer quantities: normalisation is monotone, so the sort and the chosen indices are the same.
- The fill loop of `initialize_centroids` (src/kmeans.rs:163-165): after the `for` loop it never runs, because there are already `num_clusters` centroids.
- KMeans.Fit: does not require the centroid order to be a permutation. The bounds and bijection facts live in `RemapIsBijection` and `FitLabelsInRange`.
- src/exchanges/binance.rs, `get_snapshot` and `get_precision`: network I/O. src/bin/test_exchanges.rs: a network smoke test. `create_exchange` and `format_symbol` are dispatch and formatting.
- `Decimal` precision and overflow, and the text forms `Decimal::from_str` and `serde_json` accept: parse and decode are parameters.
- Entry vectors with fewer than two elements: the source writes each row as a `Vec<Decimal>` and indexes it, which panics on a short row. The model's `Level` always has a price and a quantity.
- UI state of the selector and the text field (`selected_exchange_idx`, `edited_symbol`, `price_prec`, `qty_prec`, `kmeans_mode`). `SubmitSymbol` takes the edited text as its argument.
- Hyperliquid.Emitted: an update for message time 0 ends the stream, modelling the debug-build panic of `book.time - 1`. A release build would instead wrap to `pu = -1`.
