# Order book aggregation, modelled in Dafny

This project models the order book of `src/orderbook.rs`, which aggregates
two exchanges, Bitstamp and Binance. It proves what the book promises.

- **Storing a tick.** `MainOrderBook::add` takes a tick (one exchange's full
  depth). It collects the tick's bids and asks into price-to-amount maps and
  replaces that exchange's maps with them.
- **Merging.** `MainOrderBook::merged` merges the two exchanges' maps with
  `Merge::merge`. The merge sums the amounts at equal prices.
- **The view.** The merged view lists the ten highest bids, falling, and
  the ten lowest asks, rising. The spread is the first ask's price minus
  the first bid's price, or zero when a side is empty.

Modules:

- `SortedKeys` — ascending iteration over a finite set of prices. This is
  the order in which a `BTreeMap` yields its keys. `Descending` is that
  listing reversed, for `.rev()`.
- `PriceMaps` — a `BTreeMap<Decimal, Decimal>` as `map<real, real>`.
  - `Merge` is the source's insert-or-increment loop over the other map.
    It is proved equal to the pointwise sum.
  - `MergeAndKeep` is `merge` followed by `split_off` at the `i`-th key.
- `OrderBook` — the exchanges, ticks, books, `add`, `merged` and the view.
- `Scenarios` — the repository's `should_merge` test, stated as a lemma
  about the model.

`Decimal` is modelled as exact `real`: amounts add without rounding or
overflow. `Bid` and `Ask` have the same two fields. Both are one `Level`
datatype, with `Bid` and `Ask` as type synonyms.

The merge sums the amounts the two exchanges quote at an equal price, so a
merged level carries a single summed amount and no exchange name.

## Model

| member | source | states |
|---|---|---|
| `SortedKeys.Ascending` | src/orderbook.rs:97-100 | Iterating a map's keys lists every key exactly once, in strictly increasing order, and nothing else |
| `SortedKeys.Descending` | src/orderbook.rs:91-95 | Iterating in reverse lists every key exactly once, in strictly decreasing order |
| `PriceMaps.InsertOrIncrement` | src/orderbook.rs:144-147 | One merge step: a missing price is inserted with the new amount, a present one has the amount added; every other entry is untouched |
| `PriceMaps.MergeFrom` | src/orderbook.rs:142-149 | Visiting the other map's prices smallest first, the result holds the union of prices, and each amount is the accumulator's plus the visited one's |
| `PriceMaps.Merge` | src/orderbook.rs:140-149 | `merge` yields the union of both maps' prices: the sum where both quote a price, the one amount where only one does |
| `PriceMaps.MergeCommutes` | src/orderbook.rs:86-89 | Merging Binance into Bitstamp and the reverse give the same map |
| `PriceMaps.MergeEmpty` | src/orderbook.rs:142-149 | Merging with an empty map, on either side, returns the other map unchanged |
| `PriceMaps.MergeAndKeep` | src/orderbook.rs:151-158 | The kept map is part of the merge with the same amounts, has min(i, merged size) entries, and every kept price is below every dropped one |
| `OrderBook.NewMainOrderBook` | src/orderbook.rs:55-60 | A new book holds no bids and no asks for either exchange, each side being an empty `OrderBook::new` map |
| `OrderBook.ToMap` | src/orderbook.rs:65-70 | Every price in the tick becomes a key, every key comes from the tick, and a price quoted twice keeps the amount of its last occurrence |
| `OrderBook.Add` | src/orderbook.rs:64-82 | The addressed exchange's bids and asks become the maps collected from the tick, and the other exchange's book is untouched |
| `OrderBook.AddToNewBook` | src/orderbook.rs:178-249 | A tick added to a new book fills that exchange's book from the tick, and the other exchange stays empty |
| `OrderBook.AddLaterDuplicateWins` | src/orderbook.rs:65-67 | When a tick quotes the same bid price twice, the stored amount is the later occurrence's |
| `OrderBook.AddIdempotent` | src/orderbook.rs:72-81 | Adding the same tick twice equals adding it once |
| `OrderBook.AddOverwrites` | src/orderbook.rs:72-81 | A later tick for the same exchange erases everything the earlier one stored, so levels absent from it are gone |
| `OrderBook.AddCommutes` | src/orderbook.rs:72-81 | Ticks from different exchanges can be added in either order |
| `OrderBook.AddAllLatestWins` | src/orderbook.rs:64-82 | After a stream of ticks, each exchange's book is what its latest tick collects into |
| `OrderBook.AddAllUntouched` | src/orderbook.rs:72-81 | A stream with no tick for an exchange leaves that exchange's book as it was |
| `OrderBook.AskSide` | src/orderbook.rs:97-100 | The ask side has min(10, number of prices) levels, each an entry of the map, rising strictly, and no price left out is below a kept one |
| `OrderBook.BidSide` | src/orderbook.rs:91-95 | The bid side has min(10, number of prices) levels, each an entry of the map, falling strictly, and no price left out is above a kept one |
| `OrderBook.Merged` | src/orderbook.rs:85-108 | Each side has min(10, number of distinct prices either exchange quotes) levels; the spread is first ask minus first bid, or zero when a side is empty |
| `OrderBook.MergeSize` | src/orderbook.rs:86-89 | The merged map has exactly one entry per price quoted by either exchange |
| `OrderBook.MergedOrdered` | src/orderbook.rs:91-100 | Bids in the view fall strictly and asks rise strictly, so no price is listed twice |
| `OrderBook.MergedSumsAmounts` | src/orderbook.rs:86-100 | Each level in the view is at a price some exchange quotes, and carries the two exchanges' amounts there added together |
| `OrderBook.MergedKeepsBestPrices` | src/orderbook.rs:91-100 | No bid price of either exchange missing from the view is above a listed bid, and no missing ask is below a listed ask |
| `OrderBook.BestBid` | src/orderbook.rs:91-95 | The bid side is empty exactly when neither exchange has a bid; otherwise its first price is at least every bid price quoted |
| `OrderBook.BestAsk` | src/orderbook.rs:97-100 | The ask side is empty exactly when neither exchange has an ask; otherwise its first price is at most every ask price quoted |
| `OrderBook.TopBid` | src/orderbook.rs:86-95 | When `p` is the highest bid quoted, the view's first bid is `p` with both exchanges' amounts at `p` added |
| `OrderBook.TopAsk` | src/orderbook.rs:88-100 | When `p` is the lowest ask quoted, the view's first ask is `p` with both exchanges' amounts at `p` added |
| `OrderBook.NewBookViewIsEmpty` | src/orderbook.rs:55-60 | A new book merges into a view with no bids, no asks and a zero spread |
| `OrderBook.MergedIgnoresExchangeOrder` | src/orderbook.rs:85-89 | Swapping the two exchanges' books leaves the view unchanged |
| `OrderBook.BidSideUnique` | src/orderbook.rs:91-95 | The bid side is the only list of min(10, number of prices) map entries that falls strictly and leaves out no price above a kept one |
| `OrderBook.AskSideUnique` | src/orderbook.rs:97-100 | The ask side is the only list of min(10, number of prices) map entries that rises strictly and leaves out no price below a kept one |
| `Scenarios.ShouldMerge` | src/orderbook.rs:252-348 | With Bitstamp at whole prices at amount 1 and Binance at half prices at amount 2, the view has spread 0.5, bids 10.5 down to 6 and asks 11 up to 15.5, alternating between the exchanges |

## Left out

- `channel()` (src/orderbook.rs:168-170) and the `ToTick` trait (src/orderbook.rs:14-16): message passing and exchange adapters, outside the aggregation logic.
- Serialization and `Debug` derives: they do not affect book state.
- `Decimal` scale, the 96-bit mantissa limit and the overflow panic of `+=` and `-`: prices and amounts are exact reals, so a sum that would overflow in `rust_decimal` is not modelled.
- `BTreeMap` internals: a map is a Dafny `map`, and its iteration order is `SortedKeys.Ascending`.
- `Bid::new` and `Ask::new`: plain constructors, modelled by the `Level` datatype constructor.
- `should_add_bitstamp_tick_to_empty` (src/orderbook.rs:178-249) is covered for every tick by `OrderBook.AddToNewBook`; its concrete decimal values are not restated.
- `merge_and_keep` is not called anywhere in the source; it is modelled on its own.
