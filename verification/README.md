# Coinbase ask book and volume below the price limit

This project models the `Coinbase` component of a small order-book
monitor written in JavaScript, then proves properties of the model in
Dafny. The component subscribes to Coinbase's `level2` feed for the DAI-USDC
pair and keeps the ask side of the book as a list of `[price, amount]`
levels. It shows the notional value, price times amount, of the asks priced
below 1.

- A `snapshot` message replaces the ask list wholesale. The rows are kept
  in the order they arrive and the bids are dropped.
- An `l2update` message applies its `sell` changes one after another with
  `replaceAsks`:
  - a level already at the price gets the new amount where it stands;
  - a new price is prepended and the whole list is re-sorted ascending.
- After either message, the volume is recomputed by `sumUpToPriceLimit`.

Modules, in dependency order:

- `Levels` (`levels.dfy`): the `Level` datatype, the set of prices of a
  list, and the ordering predicates.
- `Sorting` (`sorting.dfy`): the ascending sort by price that
  `replaceAsks` calls. It is an insertion sort. On distinct prices the
  source's comparator is a strict total order, so any correct sort gives
  this same list.
- `Asks` (`asks.dfy`): `replaceAsks`.
- `Aggregation` (`aggregation.dfy`): `sumUpToPriceLimit`. It is a loop
  method proved equal to a functional definition: keep the levels below the
  limit, then add up price times amount. The module also holds lemmas on how
  one update changes the volume.
- `Coinbase` (`coinbase.dfy`): the component state, decoded messages,
  `reportUpdate`, `parseSnapshot`, `handleData`, `hasLoaded`, and runs over
  message streams.
- `Scenarios` (`scenarios.dfy`): concrete message sequences worked through
  the model.

Prices and amounts are exact `real`s. Level prices are compared with `==`,
as the source compares parsed numbers with `===`. The component's state is
a value `State(asks, volumeUpToLimit)`, both fields `Option`s that stay
`None` until the first snapshot. Each message is a pure step from one state
to the next.

Where a reader might expect an order book to behave otherwise, the model
does what the code does:

- Many order books drop levels whose amount is 0; this code keeps them.
  Setting a level to 0 leaves it in the list, and a new price with amount 0
  is inserted rather than ignored.
- The volume is price times amount, a notional value, not a sum of sizes.
- There is no bid ledger. `buy` changes are ignored and snapshot bids are
  discarded. There is no volume above a threshold and no cumulative depth
  series.
- Snapshots are not sorted; the list is sorted only when a new price is
  inserted.

## Model

| member | source | states |
|---|---|---|
| Sorting.SortByPrice | src/components/Coinbase.js:30 | the sorted list is a permutation of its input (same multiset, same length) and is ascending by price |
| Sorting.SortStrictlyAscending | src/components/Coinbase.js:29-30 | sorting a list whose prices are distinct yields a strictly ascending list |
| Asks.Overwrite | src/components/Coinbase.js:20-27 | same length; every level at the price becomes `[price, amount]` at its index; every other level is unchanged at its index |
| Asks.ReplaceAsks | src/components/Coinbase.js:18-33 | an update keeps the length when the price is present and adds exactly one level when it is absent |
| Asks.ReplaceAsksFacts | src/components/Coinbase.js:18-33 | after an update, the prices are the old prices plus the updated one; the level `[price, newAmount]` is present; every level at that price carries `newAmount`; a level at any other price is present exactly when it was before |
| Asks.ReplaceExisting | src/components/Coinbase.js:20-27 | when the price is present: same length, every level at that price becomes `[price, newAmount]` at its index, every other level is unchanged at its index |
| Asks.ReplaceAbsent | src/components/Coinbase.js:28-29 | when the price is absent: the result is the input plus exactly one level `[price, newAmount]`, as a multiset, and is one longer |
| Asks.ReplaceAbsentSorted | src/components/Coinbase.js:29-30 | when the price is absent and the input prices are distinct, the result is strictly ascending with distinct prices, whatever the input order |
| Asks.ZeroAmountsKept | src/components/Coinbase.js:19-31 | an update with amount 0 leaves a level `[price, 0]` in the list and never shortens it |
| Asks.ReplaceIdempotent | src/components/Coinbase.js:18-33 | applying the same update twice gives the same list as applying it once |
| Asks.ReplaceKeepsAscending | src/components/Coinbase.js:18-33 | a strictly ascending ask list stays strictly ascending under any update |
| Asks.ReplaceKeepsDistinct | src/components/Coinbase.js:18-33 | a list with distinct prices keeps them distinct under any update |
| Aggregation.Below | src/components/Coinbase.js:40 | a level is kept exactly when it is in the list and priced strictly below the limit |
| Aggregation.SumUpToPriceLimit | src/components/Coinbase.js:35-45 | the one-pass loop returns the sum of price times amount over exactly the levels priced strictly below the limit |
| Aggregation.VolumeIgnoresLevelsAtOrAboveLimit | src/components/Coinbase.js:36-44 | levels priced at or above the limit add nothing: appending them leaves the volume unchanged, and alone (or an empty list) they give 0 |
| Aggregation.VolumeOfSort | src/components/Coinbase.js:30 | re-sorting the list does not change its volume |
| Aggregation.VolumeAfterInsert | src/components/Coinbase.js:28-44 | inserting an absent price adds `price * amount` to the volume if the price is below the limit, and nothing otherwise |
| Aggregation.VolumeAfterOverwrite | src/components/Coinbase.js:20-44 | overwriting a present price in a list with distinct prices swaps that level's contribution for the new one |
| Coinbase.ApplyChangesPrices | src/components/Coinbase.js:57-64 | the prices after an update are the old prices plus the prices of its `sell` changes, so no level is ever removed |
| Coinbase.ApplyChangesAppend | src/components/Coinbase.js:57-64 | changes are applied strictly left to right: applying `a + b` is applying `a`, then `b` |
| Coinbase.ApplyChangesIgnoresOtherSides | src/components/Coinbase.js:58-63 | changes whose direction is not `sell` leave the asks exactly as they were |
| Coinbase.ApplyChangesKeepsOtherPrices | src/components/Coinbase.js:57-64 | levels at a price that no `sell` change names are present after the update exactly when they were before |
| Coinbase.LastWriteWins | src/components/Coinbase.js:57-64 | after an update the price of its last `sell` change to a price is present, and every level at that price carries that change's amount |
| Coinbase.ApplyChangesKeepsAscending | src/components/Coinbase.js:55-64 | a strictly ascending ask list stays strictly ascending after a whole update |
| Coinbase.ApplyChangesKeepsDistinct | src/components/Coinbase.js:55-64 | an ask list with distinct prices keeps them distinct after a whole update |
| Coinbase.ParseSnapshot | src/components/Coinbase.js:47-53 | a snapshot sets the asks to exactly the given rows, unsorted, and the volume to theirs, so the component has loaded |
| Coinbase.ReportUpdate | src/components/Coinbase.js:55-70 | on loaded asks, an update yields a loaded state whose volume is the volume of its new asks; an update with no `sell` change leaves the asks as they were |
| Coinbase.HandleData | src/components/Coinbase.js:72-82 | a snapshot sets the asks to its ask rows, bids discarded, and loads; a message of any other type changes nothing; the shown volume always matches the asks held; loaded asks stay loaded |
| Coinbase.HasLoadedIffAsks | src/components/Coinbase.js:96-98 | in every reachable state `hasLoaded` holds exactly when the asks exist, and otherwise the state is the initial one |
| Coinbase.LoadedIsProcessable | src/components/Coinbase.js:55-56 | once the asks exist, any stream of messages can be handled without reading undefined asks |
| Coinbase.SnapshotFirstIsProcessable | src/components/Coinbase.js:72-82 | a stream that opens with a snapshot can be handled from any state, the initial one included |
| Coinbase.ProcessKeepsConsistent | src/components/Coinbase.js:47-82 | after any stream of messages the volume shown is the volume of the asks held |
| Coinbase.ProcessKeepsAscending | src/components/Coinbase.js:47-82 | if every snapshot is strictly ascending, the ask list is strictly ascending after any stream of messages |
| Scenarios.ZeroedLevelStays | src/components/Coinbase.js:18-33 | a snapshot `[[0.5,5],[1.2,3]]` then `sell 0.5 0` gives asks `[[0.5,0],[1.2,3]]` and volume 0 (was 2.5) |
| Scenarios.NewPriceInsertedInOrder | src/components/Coinbase.js:28-30 | `sell 0.9 4` on `[[1.0,5]]` gives `[[0.9,4],[1.0,5]]` |
| Scenarios.ZeroAmountForAbsentPriceInserted | src/components/Coinbase.js:28-30 | `sell 0.9 0` on `[[1.0,5]]` gives `[[0.9,0],[1.0,5]]` rather than leaving the list unchanged |
| Scenarios.NotionalVolumeBelowLimit | src/components/Coinbase.js:35-45 | the asks `[[0.5,10],[0.9,20],[1.5,30]]` have volume 23 below the limit 1 |
| Scenarios.SnapshotKeptUnsortedUntilInsert | src/components/Coinbase.js:72-82 | an unsorted snapshot is kept as given, a `buy` change and a `heartbeat` message leave it, and the first new `sell` price sorts the whole list |

## Left out

- `render`, `BounceLoader` and `formatAsDollars`: presentation only, and the
  dollar formatting depends on floating-point `toFixed` rounding.
- `src/components/TitleComponent.js`: a page-title wrapper over a UI
  library.
- `Websocket`, `sendMessage`, `subscribe` and the pair name `DAI-USDC`:
  network transport; the pair name is used only in the subscribe message.
- `JSON.parse`, `parseFloat` and `console.log`: messages are modelled as
  already decoded, with numeric fields as exact reals. A malformed number
  would become `NaN` in the source; that is not modelled.
- IEEE-754 arithmetic: `price * amount` and the running `volume +=` are
  exact real arithmetic here, so rounding is not modelled.
- Sorting.SortByPrice: fixes one order for levels that share a price. The
  source's comparator never returns 0, so the order it gives equal prices
  is engine-defined. Every ordering property is stated for distinct prices.
- Coinbase.HandleData: an `l2update` before any snapshot throws a
  `TypeError` in the source, because the asks are undefined. This is a
  precondition here, not a modelled error.
- Coinbase.Process: the source reacts to messages as the socket delivers
  them. Here a stream is a sequence handled in arrival order, and each
  `setState` is taken to be applied before the next socket message is
  handled, so the next message reads the asks the previous one wrote.
