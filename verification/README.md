# The exchange core in Dafny

A model of the matching core of a trading exchange and of the balances and statistics that must agree with it, with
proofs. Every file `X.dfy` declares the module `X`.

- **Price index.** `BPlusTree` is the B+ tree as the code keeps it: nodes spliced in place, leaves linked both ways, a size
  counter, a root that splits and collapses. `BPlusModel` is the same tree as a value, `BPlusRuns` its runs against a finite
  map, `BPlusShape` its height and outermost leaves, `BPlusEnds` trees of three levels, `BPlusRepair` what a deletion does to
  the leaves, `BPlusOccupancy` and `AscendingRows` trees grown by insertions, `BPlusRoom` deletions that move nothing,
  `BPlusExample` a run whose largest entry cannot be found. `SortedEntries` and `BPlusNodes` carry the association lists and
  the footprint of the nodes.
- **First engine.** `OrderLevels` (linked lists of orders), `Ladders` (levels in price order), `LevelIndex` (levels, price map
  and index keys), `Walks` (a walk over the leaves that drops empty levels as it goes), `BookSideV1` (order map, price map,
  tree and lists), `BookV1` (both sides), `RowsV1` and `EngineV1` (order rows kept in step with the book), `EngineRunsV1`
  (whole runs, and starting again from the order table).
- **What goes wrong in it.** `TwoLeaves` and `NeverEnds` say on which indexes; `TwoLeavesExample`, `LostWalkExample`,
  `MissedBidExample` and `OffGridExample` run the book into them, with the help of `BookRuns`.
- **Second engine.** `PriceLevels`, `BookV2`, `EngineV2`, over `EngineModel` (one order against one book, branch by branch)
  and `EngineRuns` (whole runs). `TwoEngines` runs both engines side by side.
- **What both are measured against.** `ReferenceBook` and `PriorityLists`: a side of a book is one list of resting orders,
  best price first and oldest first, and a match is the greedy fill of that list.
- **On-chain custody.** `Custody`: deposit, withdraw, lock, unlock and settle over one vault per mint, in transactions that
  are rolled back as a whole when an instruction fails.
- **Off-chain state.** `Ledger` (reserve, release, settle), `Settlement` (the second engine and the ledger together),
  `Candles`, `Positions`, `DepthTable`.

Quantities, balances and prices are exact integers, in the smallest unit; positions, where the code divides, use exact
reals. Prices of the first engine count units of 1e-10, and index keys units of 1e-6, so that the rounding of
`priceToBigint` is part of the model. The services' database rows are sequences and maps, and a transaction is one step.

Where comments and code disagree the model follows the code. The first engine's `match` is commented as read-only, but
drops empty levels (order-book.ts:82, 105-109). The interval roll-up is described as one of stored candles in order of time
(001_timescaledb_candles.sql:8-21), but candles are updated in order of delivery. Users "can always exit"
(vault.rs:91-92) is true and proved. FOK orders are treated as IOC in both engines, as their comments admit
(engine.ts:155, engine.rs:116).

Some properties one would expect are false of the code. Each is shown on an input, beside the exact condition under which
it holds:

- the largest and smallest entry of a tall index: `MaxEntryMissesFour`; `MinEntryIff`, `MaxEntryIff`;
- a match of the first engine, which drops empty levels under its own cursor: an order is served twice (`ServedTwice`,
  `SellsTwice`), the best is passed over (`PassedOver`, `PassesOver`), or the walk never ends (`LostInSecond`, `NeverDone`);
  `CourseIff`, `Match`;
- its look ahead: a resting order is missed (`MissesBid`); `BlindIff`, `WouldMatch`, `PostOnlyTradesIff`;
- limits off the price grid: `TakesOffGrid`; `KeyComparesIff`, `LookAheadAgreesIff`;
- a post-only market order: `PostOnlyMarketBuyTakes`; `MarketLookAheadIff`;
- the turns of orders after a restart: `RebuildMayReorder`; `RebuildKeepsQueueIff`;
- a late acceptance: `LateAcceptanceRefundsTwice`; `AcceptIff`;
- a settlement after a cancellation: `CancelBeforeSettlementOverdraws`; `SettleIff`;
- the roll-up of candles: `LateTradeBreaksRollUp`; `RollUpIff`.

## Model

| member | source | states |
|---|---|---|
| `BPlusTree.BPlusTree.Insert` | apps/engine/v1/src/orderbook/bplus-tree.ts:32-46 | The map of stored entries becomes the old map with key := value and nothing else; `size` is the number of entries; the linked, split and re-rooted nodes still form a tree with strictly increasing separators bounding their subtrees, children = keys + 1, one depth for all leaves, at most order - 1 keys a node, and a doubly linked leaf chain |
| `BPlusTree.BPlusTree.InsertInto` | apps/engine/v1/src/orderbook/bplus-tree.ts:48-78 | Below any node: what is left in memory, whole or as two halves and the separator reported upwards, is the insertion into the tree of values the node held, and the leaf chain runs through the halves |
| `BPlusTree.BPlusTree.SplitLeaf` | apps/engine/v1/src/orderbook/bplus-tree.ts:80-94 | The leaf keeps the first half of its keys (rounded up), a new leaf holds the rest under its own first key, and the new leaf stands directly behind the old one in a chain linked both ways |
| `BPlusTree.BPlusTree.SplitInner` | apps/engine/v1/src/orderbook/bplus-tree.ts:96-108 | The middle separator leaves both halves and is reported upwards; no node belongs to both halves and none is lost |
| `BPlusTree.BPlusTree.Get` | apps/engine/v1/src/orderbook/bplus-tree.ts:110-118 | Returns the value the map of entries holds for the key, or nothing if it holds none |
| `BPlusTree.BPlusTree.Delete` | apps/engine/v1/src/orderbook/bplus-tree.ts:120-132 | Returns true exactly if the key was stored; the map loses that key and nothing else, `size` follows, and all structural invariants hold after borrows, merges and the collapse of the root; the leaf chain loses at most the leaf that is merged away, which still points to where it did, and nodes that are no longer below the root stay as they are |
| `BPlusTree.BPlusTree.DeleteFrom` | apps/engine/v1/src/orderbook/bplus-tree.ts:134-157 | Below any node: reports whether the key was there, leaves in memory the tree the deletion by value gives, and keeps the chain of the leaves that remain |
| `BPlusTree.BPlusTree.RebalanceLeaf` | apps/engine/v1/src/orderbook/bplus-tree.ts:159-192 | Whichever of the four repairs is chosen, memory holds the repaired tree and the leaf chain skips exactly the merged leaf |
| `BPlusTree.BPlusTree.RebalanceInternal` | apps/engine/v1/src/orderbook/bplus-tree.ts:194-225 | Rotations and merges of inner nodes leave the order of the leaves below untouched and give the repaired tree |
| `BPlusTree.BPlusTree.MinEntry` | apps/engine/v1/src/orderbook/bplus-tree.ts:237-241 | The entry with the least key of all, in any tree of at most two levels; in taller ones what the first leaf holds |
| `BPlusTree.BPlusTree.MaxEntry` | apps/engine/v1/src/orderbook/bplus-tree.ts:243-248 | The entry with the greatest key of all, in any tree of at most two levels; in taller ones what the last leaf holds |
| `BPlusTree.BPlusTree.MinLeaf` | apps/engine/v1/src/orderbook/bplus-tree.ts:250-257 | The first node of the leaf chain |
| `BPlusTree.BPlusTree.MaxLeaf` | apps/engine/v1/src/orderbook/bplus-tree.ts:259-266 | The last node of the leaf chain |
| `BPlusTree.BPlusTree.Bisect` | apps/engine/v1/src/orderbook/bplus-tree.ts:279-287 | The number of keys less than the given one |
| `BPlusTree.BPlusTree.BisectRight` | apps/engine/v1/src/orderbook/bplus-tree.ts:290-298 | The number of keys not greater than the given one |
| `BPlusTree.BPlusTree.ChainListsEntries` | apps/engine/v1/src/orderbook/bplus-tree.ts:84-92 | Read along `next`, the leaves list every entry of the map exactly once in strictly ascending key order, and `prev` is the reverse of `next` |
| `BPlusModel.InsertIntoOk` | apps/engine/v1/src/orderbook/bplus-tree.ts:48-108 | An insertion at any depth keeps order, bounds, depth and size limits, and its entries are the old entries with the key put in its place |
| `BPlusModel.RebalanceOk` | apps/engine/v1/src/orderbook/bplus-tree.ts:159-225 | Every borrow and merge, of leaves and of inner nodes, keeps the entries and all bounds, and never overfills a node |
| `BPlusModel.DeleteFromOk` | apps/engine/v1/src/orderbook/bplus-tree.ts:134-157 | A deletion at any depth finds the key exactly if it is stored and leaves the other entries in an ordered tree within its limits |
| `BPlusRepair.AfterMoves` | apps/engine/v1/src/orderbook/bplus-tree.ts:134-192 | A deletion takes the key out of the leaf that holds it, and all leaves are then those before but for the one repair the code chooses: none, a key borrowed from the left or the right, the leaf merged into its left neighbour, or its right neighbour into it |
| `BPlusRuns.RunIsMap` | apps/engine/v1/src/orderbook/bplus-tree.ts:32-157 | After any sequence of insertions and deletions the entries, in ascending order, are the finite map the same sequence builds |
| `BPlusRuns.GetMeans` | apps/engine/v1/src/orderbook/bplus-tree.ts:110-118 | The descent to one leaf by bisection finds exactly what the map of all entries holds |
| `BPlusShape.RunIsSolid` | apps/engine/v1/src/orderbook/bplus-tree.ts:148-192 | After any run, a tree of one or two levels has no empty leaf, and a root with children has at least two |
| `BPlusShape.LowRunsHaveTrueExtremes` | apps/engine/v1/src/orderbook/bplus-tree.ts:237-266 | After any run that ends in a tree of at most two levels, minEntry and maxEntry are the first and the last entry of the map |
| `BPlusShape.TallStaysTall` | apps/engine/v1/src/orderbook/bplus-tree.ts:120-132 | Once a tree has three levels, a deletion leaves its height as it is, even when no entry is left |
| `BPlusEnds.AfterKeepsTidy` | apps/engine/v1/src/orderbook/bplus-tree.ts:148-192 | In a tree of three levels no leaf that has a sibling is ever empty, after any insertion or deletion |
| `BPlusEnds.NothingMovesIn` | apps/engine/v1/src/orderbook/bplus-tree.ts:148-155 | There a deletion brings no entry in below the first or the last child of the root, which the code asks for no more than one leaf |
| `BPlusEnds.GoesHollowIff` | apps/engine/v1/src/orderbook/bplus-tree.ts:148-155 | There, deleting keys one by one from one end comes to an empty outermost leaf exactly if these are all the keys below the root's outermost child |
| `BPlusEnds.LowNeverHollow` | apps/engine/v1/src/orderbook/bplus-tree.ts:148-192 | In a tree of one or two levels it never does |
| `BPlusShape.MinEntryIff` | apps/engine/v1/src/orderbook/bplus-tree.ts:237-241 | minEntry is the first entry exactly if the first leaf holds something or nothing is stored |
| `BPlusShape.MaxEntryIff` | apps/engine/v1/src/orderbook/bplus-tree.ts:243-248 | maxEntry is the last entry exactly if the last leaf holds something or nothing is stored |
| `BPlusExample.MaxEntryMissesFour` | apps/engine/v1/src/orderbook/bplus-tree.ts:148-154 | Half-full nodes are not kept by deletions: a run of order 3 stores four entries and maxEntry answers that there is none |
| `BPlusOccupancy.InsertRunHalfFull` | apps/engine/v1/src/orderbook/bplus-tree.ts:62-107 | In trees grown by insertions alone every node but the root keeps at least floor(order / 2) keys or children |
| `BPlusOccupancy.InsertOnlyHeight` | apps/engine/v1/src/orderbook/bplus-tree.ts:32-108 | Such a tree of h + 1 levels stores at least 2 * floor(order / 2) ^ h entries: its height is logarithmic |
| `BPlusOccupancy.GrownHeight` | apps/engine/v1/src/orderbook/bplus-tree.ts:32-108 | With more than (order - 1) * order ^ (h - 1) and fewer than 2 * floor(order / 2) ^ (h + 1) entries it has h + 1 levels |
| `AscendingRows.AscendingInsert` | apps/engine/v1/src/orderbook/bplus-tree.ts:48-108 | A key above all others goes to the last leaf, which is cut in two when it is full; no other leaf changes, so that trees grown in ascending order have half an order of keys in every leaf but the last |
| `BPlusRoom.RoomIsSmooth` | apps/engine/v1/src/orderbook/bplus-tree.ts:148-155 | If every node keeps what is required of it without certain keys, deleting them in any order never borrows or merges |
| `Walks.UpIff` | apps/engine/v1/src/orderbook/order-book.ts:102-130 | A walk up the leaves that drops empty levels, if it ends, gives the orders ahead their greedy fill exactly if no deletion borrowed a key from the left |
| `Walks.DownIff` | apps/engine/v1/src/orderbook/order-book.ts:131-163 | A walk down that can be followed does so exactly if no key within the limit that had orders was stepped over |
| `Walks.UpSmooth` | apps/engine/v1/src/orderbook/order-book.ts:102-130 | If deleting the empty levels ahead, in turn, never borrows from the left and merges into the left only a leaf that has run empty, every walk up ends and comes to each order once and in turn; borrowing from the right and taking the right leaf in are harmless |
| `Walks.DownSmooth` | apps/engine/v1/src/orderbook/order-book.ts:131-163 | So does every walk down |
| `Walks.SmoothAfterLook` | apps/engine/v1/src/orderbook/order-book.ts:194-209 | A look for the best level, which drops empty levels of its own, keeps that so |
| `Walks.CourseIff` | apps/engine/v1/src/orderbook/order-book.ts:86-165 | For either side: what a walk gives is the greedy fill of the orders at the index keys exactly if it runs straight |
| `LevelIndex.KeysArePrices` | apps/engine/v1/src/orderbook/order-book.ts:38-65 | The leaves of the index list the prices of the levels, best first for a buyer and best last for a seller |
| `LevelIndex.WaitingIsQueue` | apps/engine/v1/src/orderbook/order-book.ts:38-65 | The orders at these keys, taken in that order, are the queue |
| `OrderLevels.PriceLevel.Append` | apps/engine/v1/src/orderbook/price-level.ts:15-27 | The order becomes the last of a well-formed doubly linked list whose head, tail, count and total are those of the list |
| `OrderLevels.PriceLevel.Remove` | apps/engine/v1/src/orderbook/price-level.ts:29-45 | The order leaves the list wherever it stands, the others keep their turns, and head, tail, count and total follow |
| `BookSideV1.OrderBookSide.Add` | apps/engine/v1/src/orderbook/order-book.ts:38-65 | The order queues up behind all orders of its own or a better price; order map, price map, tree, lists, counts, totals and the number of empty levels still agree |
| `BookSideV1.OrderBookSide.RemoveOrder` | apps/engine/v1/src/orderbook/order-book.ts:67-79 | Exactly the named order leaves the queue, or nothing happens if there is none; all four structures still agree, with or without the cleanup it may set off |
| `BookSideV1.OrderBookSide.Match` | apps/engine/v1/src/orderbook/order-book.ts:86-165 | Whatever levels are empty: the matches are those of the walk over the index as it was before the call, they are the greedy fill of the queue exactly if that walk runs straight, each is with a resting order within the limit's key at that order's own price, the queue stays and only empty levels go. Required is only that the walk ends |
| `BookSideV1.OrderBookSide.UndisturbedIsClear` | apps/engine/v1/src/orderbook/order-book.ts:105-109 | Every walk ends and runs straight if dropping the empty levels, best first, never borrows from the left and merges into the left only leaves that have run empty |
| `BookSideV1.OrderBookSide.RoomIsUndisturbed` | apps/engine/v1/src/orderbook/order-book.ts:105-109 | That holds if every node keeps what is required of it without the empty levels: in an index of two levels, one level with orders in every leaf |
| `BookSideV1.OrderBookSide.FullOrFlatIsUndisturbed` | apps/engine/v1/src/orderbook/order-book.ts:105-109 | It holds if no level is empty, or if the index is one leaf |
| `BookSideV1.OrderBookSide.ApplyMatches` | apps/engine/v1/src/orderbook/order-book.ts:167-186 | The makers give what was matched, the filled ones leave the list, the order map and the queue, and all counts, totals and empty-level numbers still agree |
| `BookSideV1.OrderBookSide.CleanupLevel` | apps/engine/v1/src/orderbook/order-book.ts:215-219 | An empty level leaves both price indexes and the empty-level count; no order moves |
| `BookSideV1.OrderBookSide.MaybeCleanup` | apps/engine/v1/src/orderbook/order-book.ts:221-231 | More than a fifth empty: all empty levels go and none is left; otherwise nothing changes; either way the count of empty levels is exact |
| `BookSideV1.OrderBookSide.CleanBestLevel` | apps/engine/v1/src/orderbook/order-book.ts:194-209 | Returns the best level that holds an order; returns none exactly if no order rests or dropping the leading empty levels of the index, as it was before the call, comes to an empty leaf at that end; says what is left of the index |
| `BookSideV1.OrderBookSide.BestPrice` | apps/engine/v1/src/orderbook/order-book.ts:188-191 | The price of the order that is first in the queue; none exactly under the same condition, read before the call |
| `BookSideV1.OrderBookSide.BlindIff` | apps/engine/v1/src/orderbook/order-book.ts:194-209 | In an index of three levels that condition holds exactly if no level below the root's child at the best end holds an order |
| `BookSideV1.OrderBookSide.LowIsNotBlind` | apps/engine/v1/src/orderbook/order-book.ts:194-209 | In an index of one or two levels it never holds |
| `BookSideV1.KeyComparesIff` | apps/engine/v1/src/orderbook/order-node.ts:7-9 | Comparing index keys is comparing prices except for exactly those pairs that round to one key in the wrong order; on the 1e-6 grid it always is |
| `BookSideV1.KeyIsNearest` | apps/engine/v1/src/orderbook/order-node.ts:7-9 | A key stands for exactly the prices from half a step below it up to, but not including, half a step above |
| `TwoLeaves.ServedTwice` | apps/engine/v1/src/orderbook/order-book.ts:102-130 | For every order of the index: two leaves, the first with more than half an order of levels, none of them empty, and all levels of the second empty. A buyer who wants more than the first leaf has is served its last level a second time |
| `TwoLeaves.PassedOver` | apps/engine/v1/src/orderbook/order-book.ts:131-163 | And a seller passes the last level of the first leaf over, the best bids there are |
| `TwoLeavesExample.SellsTwice` | apps/engine/v1/src/orderbook/order-book.ts:102-130 | A run of the book at order 64 comes there: asks at 2 to 65 and at 1, those from 34 on cancelled with two sweeps on the way. A buyer of 40 is given 34 though 33 rest |
| `TwoLeavesExample.PassesOver` | apps/engine/v1/src/orderbook/order-book.ts:131-163 | The same run of bids: a seller of 1 at any price is given the bid at 32 while the one at 33 rests |
| `NeverEnds.MergesLeft` | apps/engine/v1/src/orderbook/bplus-tree.ts:159-182 | A leaf with just what is required of it, not the first below its parent and with no fuller neighbour there, is merged into its left neighbour by the next deletion |
| `NeverEnds.LostInSecond` | apps/engine/v1/src/orderbook/order-book.ts:102-109 | For every order of 6 or more: three levels, half an order in each of the first three leaves, none of the first leaf's levels empty and the first two of the second. A buyer who wants more than the first leaf has is never done |
| `LostWalkExample.TwoCancelled` | apps/engine/v1/src/orderbook/order-book.ts:102-109 | A run of the book at order 64 comes there: asks at 1 to 4033, those at 33 and 34 cancelled |
| `LostWalkExample.Turns` | apps/engine/v1/src/orderbook/order-book.ts:103-109 | Once the walk stands at an empty level of a leaf that is no longer in the index, any number of further turns leaves it there, and each takes one from the count of empty levels |
| `LostWalkExample.NeverDone` | apps/engine/v1/src/orderbook/order-book.ts:103-109 | In that run the walk drops the level at 33, its leaf goes, and it stands there for ever |
| `MissedBidExample.MissesBid` | apps/engine/v1/src/orderbook/order-book.ts:194-209 | A run of the book at order 64: bids at 1 to 4033, cancelled from the top down to 2. The bid at 1 rests, and the look ahead reports none |
| `BookV1.AddTo` | apps/engine/v1/src/orderbook/order-book.ts:243-246 | Adding on one side takes the order's place in that queue and leaves the other side as it was |
| `BookV1.RemoveFrom` | apps/engine/v1/src/orderbook/order-book.ts:248-251 | Removing on one side takes that order out and leaves the other side as it was |
| `BookV1.MatchFor` | apps/engine/v1/src/orderbook/order-book.ts:253-260 | The greedy fill of the queue; with the limit and a maker's price on the 1e-6 grid, that price is within the limit |
| `BookV1.MatchAndApply` | apps/engine/v1/src/orderbook/order-book.ts:253-265 | Matching and then applying gives the greedy fill, at the makers' own prices, and leaves the greedy rest; the other side stays. Required is only that the walk ends and runs straight |
| `BookV1.WouldMatch` | apps/engine/v1/src/orderbook/order-book.ts:267-277 | True exactly if the best resting order reaches the price and, on the index as it was before the call, the look for it does not come to an empty leaf; no order moves |
| `BookV1.LookAheadAgreesIff` | apps/engine/v1/src/orderbook/order-book.ts:253-277 | The look ahead, on prices, and the match, on keys, agree unless the best order has the key of the limit but is beyond it |
| `OffGridExample.TakesOffGrid` | apps/engine/v1/src/orderbook/order-book.ts:110-121 | For all prices that differ but share a key, such as a limit of 1.0000004 and an ask of 1.00000049: a buyer's look ahead sees nothing within the limit, and the match that follows trades above it |
| `ReferenceBook.FillsAreGreedy` | apps/engine/v2/src/orderbook/book.rs:145-171 | The fills serve a front stretch of the queue in turn, all but the last fully, within the limit, until the taker is served or the next order does not cross |
| `ReferenceBook.GreedyIsUnique` | apps/engine/v2/src/orderbook/book.rs:145-171 | There is only one list of fills that does so |
| `ReferenceBook.FillsConserve` | apps/engine/v2/src/orderbook/book.rs:151-169 | What the taker gets is what the resting orders lose, never more than it wanted, and no order is left with nothing |
| `ReferenceBook.ServedOrUncrossed` | apps/engine/v2/src/orderbook/book.rs:106-112 | Afterwards the taker is served or nothing left on the side crosses its limit |
| `ReferenceBook.EnqueuePlace` | apps/engine/v2/src/orderbook/book.rs:49-61 | A new order stands behind everyone who offers the other side as much or more and before everyone who offers less; nobody else moves |
| `ReferenceBook.RemovePlace` | apps/engine/v2/src/orderbook/book.rs:63-77 | A cancellation takes out the first order of that id and price, if there is one, and nobody else moves |
| `PriceLevels.PriceLevel.Add` | apps/engine/v2/src/orderbook/price_level.rs:28-31 | The order is the last of the queue and the running total is the sum of the queue |
| `PriceLevels.PriceLevel.RemoveFront` | apps/engine/v2/src/orderbook/price_level.rs:37-44 | The first order leaves, the others and the running total follow |
| `PriceLevels.PriceLevel.ReduceFront` | apps/engine/v2/src/orderbook/price_level.rs:46-51 | The first order wants less by this much and keeps its turn |
| `PriceLevels.PriceLevel.CancelOrder` | apps/engine/v2/src/orderbook/price_level.rs:53-61 | Removes the order with this id if there is one, says whether there was, and keeps the turns of the others |
| `PriceLevels.PriceLevel.MatchAgainst` | apps/engine/v2/src/orderbook/book.rs:145-171 | One level, front to back: the greedy fill of its queue, the greedy rest, and something left to match only if the level ran empty |
| `BookV2.OrderBook.Add` | apps/engine/v2/src/orderbook/book.rs:49-61 | The order queues up behind all of its own or a better price; levels stay sorted by price and none is empty |
| `BookV2.OrderBook.Cancel` | apps/engine/v2/src/orderbook/book.rs:63-77 | Takes the first order with this id and price out of the bids for a buyer and out of the asks for a seller, leaves the other side as it was, drops a level that empties, and returns true exactly if the queue got shorter |
| `BookV2.OrderBook.WouldMatch` | apps/engine/v2/src/orderbook/book.rs:79-96 | True exactly if the best opposite price reaches the order's |
| `BookV2.OrderBook.MatchOrder` | apps/engine/v2/src/orderbook/book.rs:98-143 | Returns the greedy fill of the opposite queue under the order's limit (none for a market order) and leaves the greedy rest, with every emptied level dropped and no other |
| `BookV2.OrderBook.BestBid` | apps/engine/v2/src/orderbook/book.rs:173-175 | The price of the first bid of the queue |
| `BookV2.OrderBook.BestAsk` | apps/engine/v2/src/orderbook/book.rs:177-179 | The price of the first ask of the queue |
| `BookV2.OrderBook.ViewIsSorted` | apps/engine/v2/src/orderbook/book.rs:36-39 | In a sound book both queues are sorted best price first and hold positive quantities only |
| `BookV2.OrderBook.Depth` | apps/engine/v2/src/orderbook/book.rs:188-194 | The first n levels with their running totals are the first n prices of the queue with the sums of their orders |
| `EngineModel.ProcessOk` | apps/engine/v2/src/matching/engine.rs:50-119 | Processing any order keeps the book sorted, positive and never crossed: every bid is below every ask |
| `EngineModel.CancelOk` | apps/engine/v2/src/matching/engine.rs:121-127 | So does any cancellation |
| `EngineModel.CancelWithdraws` | apps/engine/v2/src/matching/engine.rs:121-127 | A cancellation takes the named order out on the named side only, and moves nobody else |
| `EngineModel.AnswerMeans` | apps/engine/v2/src/matching/engine.rs:59-119 | Filled: all of the order, or as much as there was for one that may not rest; partially filled: a limit order good till cancelled, with exactly the rest still wanted; accepted: one that found nothing; rejected: one that found nothing and may not rest, or a post-only one |
| `EngineModel.RestsIff` | apps/engine/v2/src/matching/engine.rs:59-119 | The own side of the book changes exactly if the order is a limit order good till cancelled, is not refused and is not filled: then what the fills left of it queues up under its own id, owner and price |
| `EngineModel.MarketNeverRests` | apps/engine/v2/src/matching/engine.rs:70-118 | A market order leaves its own side as it was and is only filled, as far as the other side goes, or rejected; without the post-only flag it is rejected exactly if nothing rests on the other side |
| `EngineModel.WouldMatchIff` | apps/engine/v2/src/orderbook/book.rs:79-96 | For a limit order the look ahead is true exactly if matching would return a fill |
| `EngineModel.PostOnlyNeverTakes` | apps/engine/v2/src/matching/engine.rs:62-78 | A post-only limit order is rejected with the book unchanged or rests whole with nothing crossing it |
| `EngineModel.MarketLookAheadIff` | apps/engine/v2/src/matching/engine.rs:62-68 | For a market order the look ahead is right exactly if there is nothing to match or its stored price happens to cross |
| `EngineModel.PostOnlyMarketBuyTakes` | apps/engine/v2/src/matching/engine.rs:62-68 | It is not always: a post-only market buy, stored at price 0, trades on entry |
| `EngineRuns.RunOk` | apps/engine/v2/src/matching/engine.rs:50-127 | After any run of orders and cancellations the book is sorted, positive and never crossed |
| `EngineRuns.RunBalances` | apps/engine/v2/src/matching/engine.rs:68-127 | For every order id over any run: submitted = taken + given as maker + withdrawn + discarded or rejected + still resting |
| `EngineRuns.RunIsFair` | apps/engine/v2/src/orderbook/book.rs:103-140 | Every fill of every run is positive and, for a limit order, at most at the limit of a buyer and at least at that of a seller |
| `EngineRuns.OnlyLimitsRest` | apps/engine/v2/src/matching/engine.rs:68-119 | Over any run only limit orders good till cancelled ever come to rest, and something is dropped only of market, IOC and FOK orders and of post-only orders turned away whole |
| `EngineRuns.MakersWereSubmitted` | apps/engine/v2/src/matching/engine.rs:50-127 | After any run every resting order was submitted as a limit order good till cancelled on that side, by that owner, at that price and for at least what rests |
| `EngineRuns.NeverOverfilled` | apps/engine/v2/src/matching/engine.rs:86-106 | No order ever trades more than was submitted under its id |
| `EngineV2.Execute` | apps/engine/v2/src/matching/engine.rs:59-119 | Book and answer are those of the model, branch by branch; the k-th trade reported is with the k-th order of the other queue, at its price, between its owner and the taker, and for no more than it wanted; a market order leaves its own side alone and is only filled or rejected |
| `EngineV2.AnswerTells` | apps/engine/v2/src/matching/engine.rs:80-118 | What is reported of an order: partners in the order of the queue, at their prices, with the taker on its own side; and what a market order leaves alone |
| `EngineV2.MatchingEngine.ProcessOrder` | apps/engine/v2/src/matching/engine.rs:50-119 | Stop orders are only kept aside; any other order goes to its market's book alone, with the model's answer and the trades reported as in `Execute`; a market order never rests; other markets and stops stay; everything added is newly allocated |
| `EngineV2.MatchingEngine.CancelOrder` | apps/engine/v2/src/matching/engine.rs:121-127 | Takes the named order out on the named side of the named market, moves nobody else, and returns true exactly if an order left |
| `EngineV2.MatchingEngine.CheckStops` | apps/engine/v2/src/matching/engine.rs:129-151 | Hands out exactly the stop orders of that market the price reaches, a buyer's at or above its stop and a seller's at or below, and keeps exactly the others, both in order of arrival |
| `EngineV2.StopsTriggerOnce` | apps/engine/v2/src/matching/engine.rs:135-148 | Over any run of prices each stop order is handed out exactly once if some price reached it and is kept otherwise |
| `EngineV2.Serve` | apps/engine/v2/src/matching/engine.rs:36-127 | An engine driven through any run of requests to a market holds the book of that run, which is never crossed |
| `EngineV2.DepthBothWays` | apps/engine/v2/src/matching/engine.rs:153-155 | After any run, the depth read from the engine's running totals is the depth the depth service builds from a table of exactly the resting orders |
| `TwoEngines.MatchInBoth` | apps/engine/v1/src/orderbook/order-book.ts:86-186 | From the same queue and for the same limit order, the first engine's match and apply and the second's match give the same fills in the same order, the same prices on the grid, and leave the same queue |
| `EngineV1.Engine.HandleOrderCreated` | apps/engine/v1/src/engine.ts:9-174 | Rows and book stay in step: filled + remaining = quantity in every row, a row is open or partly filled exactly if its order rests with that remainder; book and answer are those of the order book model; a post-only order is refused exactly if it reaches the best price and the look ahead, on the index before the event, can see it; only the order itself and makers it traded with change. A row that remains at nothing is filled; otherwise it is open or partly filled if good till cancelled and not refused, and rejected or cancelled if not; only then is anything paid back, price times remaining to a buyer and remaining to a seller. Every user's reserve, summed over the live limit rows of a side, falls by exactly what fills spent of it at each order's own limit and what is paid back |
| `EngineV1.ReserveIsKept` | apps/engine/v1/src/engine.ts:81-198 | For every event, user and side: reserve of the live limit rows after + what fills spent at the orders' own limits + what the event pays back = reserve before, where a buy holds price times remaining and a sell the remaining quantity |
| `EngineV1.StatusTells` | apps/engine/v1/src/engine.ts:56-173 | Filled exactly if nothing remains; of the others, good till cancelled and not refused: open if nothing traded, else partly filled; otherwise rejected if nothing traded, else cancelled; the row is filled by what the fills amount to |
| `EngineV1.HandledOk` | apps/engine/v1/src/engine.ts:56-173 | So the first engine's book too is sorted and never crossed, whatever events arrive |
| `EngineV1.PostOnlyTradesIff` | apps/engine/v1/src/engine.ts:56-61 | A post-only order trades on entry exactly if its key reaches that of the best order and the look ahead could not see that order or the price itself is beyond the limit; otherwise it rests whole or is turned away |
| `EngineV1.PostOnlyOnGrid` | apps/engine/v1/src/engine.ts:56-61 | On the grid: exactly if the look ahead could not see the best order |
| `EngineV1.UndisturbedIsClearFor` | apps/engine/v1/src/orderbook/order-book.ts:105-109 | The event's condition on the index, look ahead included, holds if dropping the empty levels disturbs no walk |
| `EngineV1.WriteMakers` | apps/engine/v1/src/engine.ts:81-124 | Match by match, each maker's row takes its fill and its status, and no other row changes |
| `EngineV1.Finish` | apps/engine/v1/src/engine.ts:128-173 | The taker ends filled, resting with its remainder, or cancelled; in the last case price times the remainder is paid back to a buyer and the remainder to a seller, otherwise nothing |
| `EngineV1.TurnedAway` | apps/engine/v1/src/engine.ts:176-198 | A rejected order keeps its quantity in the row, rests nowhere and is paid back whole: price times remaining to a buyer, remaining to a seller |
| `EngineV1.LoadFromDb` | apps/engine/v1/src/orderbook/index.ts:18-37 | Both sides built row by row from the table hold exactly what loading the table means, whatever its order |
| `EngineRunsV1.Restart` | apps/engine/v1/src/orderbook/index.ts:18-37 | A running engine's rows, listed in any order, are loaded to a book with the same resting orders exactly if no limit order of the side is pending |
| `EngineRunsV1.Drive` | apps/engine/v1/src/engine.ts:9-174 | An engine driven through any run of new orders and their events, in any order and with repetitions, that name fewer prices a side than the order of the index (64): every event does what the book model says, and no order is ever missed, served twice or waited for |
| `EngineRunsV1.TraceIsRun` | apps/engine/v1/src/engine.ts:56-173 | The book it ends with is that of the order book model, run on the orders that were let in |
| `EngineRunsV1.TraceIsOk` | apps/engine/v1/src/engine.ts:56-173 | So it is sorted, positive and never crossed at any time |
| `EngineRunsV1.PostOnlyRests` | apps/engine/v1/src/engine.ts:56-61 | And on the grid no post-only order of the run trades on entry |
| `RowsV1.LoadIsBooked` | apps/engine/v1/src/orderbook/index.ts:19-34 | Loading gives at every price the resting orders of the rows, and the pending limit orders of that side besides |
| `RowsV1.RebuildRestoresIff` | apps/engine/v1/src/orderbook/index.ts:19-34 | The rebuilt queue has the orders of the lost one exactly if no limit order of the side is pending, in whatever order the table lists its rows |
| `RowsV1.LoadIsStable` | apps/engine/v1/src/orderbook/index.ts:22-34 | At every price the rebuilt queue keeps the order of the table |
| `RowsV1.RebuildKeepsQueueIff` | apps/engine/v1/src/orderbook/index.ts:19-34 | The rebuilt queue is the lost one exactly if no limit order of the side is pending and the table lists the orders of each price in their turns |
| `RowsV1.RebuildMayReorder` | apps/engine/v1/src/orderbook/index.ts:19-21 | The query asks for no order: two orders of one price can change their turns |
| `Custody.SurplusIsDonated` | smart-contract/programs/smart_contract/src/instructions/settle.rs:18-68 | One instruction: vault minus all balances of the mint changes by what outsiders send to the vault and by nothing else |
| `Custody.RunIsSolvent` | smart-contract/programs/smart_contract/src/instructions/vault.rs:41-115 | Over any run of transactions, failed ones rolled back: vault = available + locked over all balances + what outsiders sent to it |
| `Custody.SettlementRedistributes` | smart-contract/programs/smart_contract/src/instructions/settle.rs:36-68 | A transaction of locks, unlocks and transfer legs leaves the total of each mint, the vaults and the wallets untouched |
| `Custody.BalancesFit` | smart-contract/programs/smart_contract/src/instructions/settle.rs:22-66 | No balance, nor any the code computes, exceeds what 64 bits hold |
| `Custody.WithdrawIff` | smart-contract/programs/smart_contract/src/instructions/vault.rs:93-115 | The owner's withdrawal to an own wallet succeeds exactly if the amount is positive and available: never short of vault tokens, paused or not |
| `Custody.DepositIff` | smart-contract/programs/smart_contract/src/instructions/vault.rs:41-63 | The owner's deposit from an own wallet succeeds exactly if the asset is enabled, the program is not paused, and the amount is positive and in the wallet |
| `Custody.DepositCredits` | smart-contract/programs/smart_contract/src/instructions/vault.rs:41-63 | It adds the amount to what that owner can dispose of and to the vault, takes it from the wallet, and changes nobody else's funds |
| `Custody.WithdrawDebits` | smart-contract/programs/smart_contract/src/instructions/vault.rs:93-115 | A withdrawal takes the amount from what that owner can dispose of and from the vault, puts it into the wallet, and changes nobody else's funds |
| `Custody.DepositThenWithdraw` | smart-contract/programs/smart_contract/src/instructions/vault.rs:41-115 | A deposit can always be withdrawn again; wallets, vaults and all funds are then as before |
| `Custody.SwitchesStopDeposits` | smart-contract/programs/smart_contract/src/instructions/vault.rs:41-115 | Pausing the program or disabling an asset stops deposits and nothing else |
| `Custody.EveryoneCanExit` | smart-contract/programs/smart_contract/src/instructions/vault.rs:91-115 | All available funds of all owners can be withdrawn in one transaction |
| `Custody.LockThenUnlock` | smart-contract/programs/smart_contract/src/instructions/settle.rs:18-34 | Unlocking what was just locked restores the state |
| `Custody.TransferIff` | smart-contract/programs/smart_contract/src/instructions/settle.rs:36-68 | A settlement is accepted exactly between two different accounts of one mint, for a positive amount in the chosen bucket |
| `Custody.LockMoves` | smart-contract/programs/smart_contract/src/instructions/settle.rs:18-25 | Locking succeeds exactly for a positive available amount and moves it from the available to the locked funds of that account alone |
| `Custody.UnlockMoves` | smart-contract/programs/smart_contract/src/instructions/settle.rs:27-34 | Unlocking succeeds exactly for a positive locked amount and moves it back |
| `Custody.SettlePays` | smart-contract/programs/smart_contract/src/instructions/settle.rs:53-68 | A settlement takes the amount from the chosen bucket of the payer, adds it to the available funds of the receiver, and changes no other bucket of anyone |
| `Custody.PaidCanLeave` | smart-contract/programs/smart_contract/src/instructions/settle.rs:53-68 | After it the receiver can withdraw exactly any positive amount up to the old available funds and the payment |
| `Custody.Program.Deposit` | smart-contract/programs/smart_contract/src/instructions/vault.rs:41-63 | The stated reasons for refusal are the only ones, overflow is not among them; otherwise the named balance, made if need be, and the vault grow by the amount |
| `Custody.Program.Withdraw` | smart-contract/programs/smart_contract/src/instructions/vault.rs:93-115 | The stated reasons for refusal are the only ones; otherwise balance and vault shrink by the amount |
| `Custody.Program.Lock` | smart-contract/programs/smart_contract/src/instructions/settle.rs:18-25 | Refused exactly for a zero or unavailable amount; otherwise that balance has the amount less available and more locked, every other balance stays; overflow cannot happen |
| `Custody.Program.Unlock` | smart-contract/programs/smart_contract/src/instructions/settle.rs:27-34 | Refused exactly for a zero or not locked amount; otherwise that balance has the amount more available and less locked, every other balance stays; overflow cannot happen |
| `Custody.Program.SettleTransfer` | smart-contract/programs/smart_contract/src/instructions/settle.rs:53-68 | Refused exactly for one account, two mints, a zero or missing amount; otherwise the chosen bucket of the payer shrinks and the available amount of the receiver grows by it, and every other amount stays; overflow cannot happen |
| `Custody.Program.Transact` | smart-contract/programs/smart_contract/src/instructions/settle.rs:36-41 | A transaction takes effect whole or not at all |
| `Ledger.SlackIsGained` | apps/server/src/services/order/order.service.ts:23-100 | For every user and asset, locked minus the needs of the live orders changes by the declared gain of the operation, price improvement or an unpriced reserve, and by nothing else |
| `Ledger.LockedIsExact` | apps/server/src/services/order/order.service.ts:23-100 | Over any run: locked = needs of the live orders + what was gained, exactly |
| `Ledger.RunIsSound` | apps/server/src/services/ledger/ledger.service.ts:127-170 | Over any run rows stay consistent, orders covered and balances not negative |
| `Ledger.RunIsCovered` | apps/server/src/services/ledger/ledger.service.ts:151-170 | Over any run each user's locked amount is at least the sum over live orders of price * remaining for buys and remaining for sells, and no balance is negative |
| `Ledger.RepeatedTradeIsIgnored` | apps/server/src/services/ledger/consumers/trade.consumer.ts:52-54 | A trade event delivered again, at any later time, changes nothing in the whole run |
| `Ledger.CancelIff` | apps/server/src/services/order/order.service.ts:79-100 | Cancelling a live order succeeds exactly if it is a sell or has a price, is always covered, and pays back exactly its need |
| `Ledger.CreateThenCancel` | apps/server/src/services/order/order.service.ts:45-100 | Placing and cancelling a limit order restores all balances |
| `Ledger.CreateIff` | apps/server/src/services/order/order.service.ts:10-52 | An order is filed exactly if its market is known, its id is new, and what it has to set aside is available |
| `Ledger.ReleaseIff` | apps/server/src/services/order/order.service.ts:79-90 | A cancellation is accepted exactly from the owner of a pending or open order, a rejection exactly for such an order, both with a price if it is a buy and a balance row of the owner |
| `Ledger.CreateReserves` | apps/server/src/services/order/order.service.ts:23-77 | An order that is filed moves from available to locked: the quantity for a sell; for a buy price times quantity, stop price times quantity for a stop-market order, and all that is available for a market order; nobody else's funds move |
| `Ledger.ReleaseFrees` | apps/server/src/services/order/order.service.ts:79-111 | A cancellation by the owner, or a rejection, moves price times remaining of a buy or the remaining quantity of a sell back from locked to available, and marks that row alone |
| `Ledger.AcceptOpens` | apps/server/src/consumers/order.consumer.ts:44-55 | An acceptance opens that row and moves no funds |
| `Ledger.TradePays` | apps/server/src/services/ledger/ledger.service.ts:127-170 | Between two users, account by account: the buyer can dispose of the quantity of base and has price times quantity less quote locked; the seller has the quantity less base locked and can dispose of price times quantity, less the taker's fee if the seller took and the maker's otherwise; every other amount of everyone stays |
| `Ledger.TradeFills` | apps/server/src/services/ledger/consumers/trade.consumer.ts:96-111 | Both orders are filled by the quantity and nothing else in the rows changes |
| `Ledger.CreditAndDebit` | apps/server/src/services/ledger/ledger.service.ts:20-63 | A credit adds to one account's available funds; a debit is refused exactly if there is not that much, and else takes it from there; nothing else moves |
| `Ledger.FundsAreExact` | apps/server/src/services/ledger/ledger.service.ts:20-170 | Over any run: available + locked of every account is what it was plus what credits and trades brought, less what debits and trades took; orders only move funds between the two |
| `Ledger.AcceptIff` | apps/server/src/consumers/order.consumer.ts:44-55 | An acceptance keeps the accounts exactly if the order is still live or nothing of it remains |
| `Ledger.LateAcceptanceRefundsTwice` | apps/server/src/consumers/order.consumer.ts:44-47 | Otherwise it brings a cancelled order back, which is then refunded a second time |
| `Ledger.SettleIff` | apps/server/src/services/ledger/consumers/trade.consumer.ts:82-111 | A trade keeps everyone's accounts exactly if its buy order is live or needs nothing for it and its sell order is live or the quantity is zero |
| `Ledger.CancelBeforeSettlementOverdraws` | apps/server/src/services/ledger/consumers/trade.consumer.ts:82-94 | Otherwise what was given back is taken: a cancelled buyer ends 100 below zero locked |
| `Ledger.TradeConserves` | apps/server/src/services/ledger/ledger.service.ts:127-170 | A settlement keeps the total of the base asset and takes only the seller's fee out of the quote asset |
| `Ledger.LedgerStore.CreateOrder` | apps/server/src/services/order/order.service.ts:10-77 | Refused for the stated reasons only, else reserves and files the order in one step |
| `Ledger.LedgerStore.Cancel` | apps/server/src/services/order/order.service.ts:79-111 | Refused for the stated reasons only, else releases and marks the order |
| `Ledger.LedgerStore.Accepted` | apps/server/src/consumers/order.consumer.ts:44-55 | The row becomes open whatever it was |
| `Ledger.LedgerStore.Rejected` | apps/server/src/consumers/order.consumer.ts:57-88 | A live order is refused and its reserve released; any other is left alone |
| `Ledger.LedgerStore.SettleTrade` | apps/server/src/services/ledger/ledger.service.ts:113-172 | Nothing changes if a payer has no balance row; otherwise, also between accounts of one user, the buyer pays price times quantity out of what is locked and can dispose of the quantity bought, the seller pays the quantity out of what is locked and can dispose of price times quantity less the seller's fee, and all other amounts stay |
| `Ledger.LedgerStore.ConsumeTrade` | apps/server/src/services/ledger/consumers/trade.consumer.ts:52-111 | Once per trade id: the payments of `SettleTrade`, account by account, and both rows filled |
| `Ledger.LedgerStore.CreditAccount` | apps/server/src/services/ledger/ledger.service.ts:20-38 | The available amount grows, in a new balance row if need be |
| `Ledger.LedgerStore.DebitAccount` | apps/server/src/services/ledger/ledger.service.ts:40-63 | Refused exactly if there is not enough available; otherwise it shrinks |
| `Settlement.RunFillsKnown` | apps/engine/v2/src/matching/engine.rs:86-104 | Every trade of a run of limit orders is between two submitted orders of opposite sides, by their owners, at the maker's price and within the buyer's limit |
| `Settlement.SettledWithin` | apps/server/src/services/ledger/consumers/trade.consumer.ts:96-111 | However the trades of a run are delivered, what is settled for an order never exceeds its quantity |
| `Settlement.EngineRunSettles` | apps/server/src/services/ledger/consumers/trade.consumer.ts:52-111 | Whatever the second engine trades in a run, the ledger can settle in any order, with repetitions, interleaved with creations, acceptances, rejections, cancellations of settled-up orders, credits and debits: orders stay covered and no balance is ever negative |
| `Candles.BucketIff` | apps/server/src/services/market/candle.service.ts:17-20 | A time falls into a bucket exactly if it lies between its opening time and the next one's |
| `Candles.CandleStore.UpdateFromTrade` | apps/server/src/services/market/candle.service.ts:31-70 | For every market, length and bucket the stored candle is that of exactly that bucket's trades so far: no trade above its high or below its low, each of the two traded at, open and close those of the first and the last to arrive, volume their sum; there is a candle exactly where there was a trade |
| `Candles.HighLowBound` | apps/server/src/services/market/candle.service.ts:59-64 | Every trade lies between low and high, and some trade has each of the two prices |
| `Candles.StoredTells` | apps/server/src/services/market/candle.service.ts:31-70 | The same of every stored candle, over all trades of its market and time |
| `Candles.WindowsJoin` | apps/server/src/services/market/candle.service.ts:31-69 | Highest, lowest and total of two neighbouring windows join in whatever order the trades arrived |
| `Candles.RollUpIff` | packages/db/migrations/001_timescaledb_candles.sql:11-21 | In any order of arrival: a coarse candle exists exactly if the roll-up of the finer ones does, with the same high, low, volume and closing time; they are equal exactly if the first and the last arrival have the prices of the first and the last in bucket order |
| `Candles.OpensInPlace` | apps/server/src/services/market/candle.service.ts:41-54 | It is enough for the open that the first arrival lies in the first traded bucket |
| `Candles.ClosesInPlace` | apps/server/src/services/market/candle.service.ts:55-66 | And for the close that the last arrival lies in the last traded bucket |
| `Candles.CoarserIsRollUp` | packages/db/migrations/001_timescaledb_candles.sql:11-21 | With trades in order of time every candle is the roll-up of the finer ones inside it, for all pairs of lengths |
| `Candles.LateTradeBreaksRollUp` | apps/server/src/services/ledger/consumers/trade.consumer.ts:117-118 | Trade times are given when rows are created, not when candles are updated; two trades counted in the other order open differently |
| `Positions.PositionStore.UpdateFromTrade` | apps/server/src/services/position/position.service.ts:5-50 | Opens a position at the trade's price, or adds to it: quantities add up, average times quantity grows by price times quantity, what was realized stays; other positions stay |
| `Positions.PositionStore.ClosePosition` | apps/server/src/services/position/position.service.ts:52-90 | Closes at most what is open and realizes, on what is closed, exit less average entry for a long and average entry less exit for a short; the average and other positions stay |
| `Positions.RealizedIsCash` | apps/server/src/services/position/position.service.ts:33-90 | Over any run of opens and closes, full closes and reopening included: what is open = entered - left; realized = exit proceeds + average entry * quantity - entry cost for a long, entry cost - average entry * quantity - exit proceeds for a short |
| `Positions.TotalIsCashAndMark` | apps/server/src/services/portfolio/portfolio.service.ts:38-47 | So realized plus unrealized depends only on the cash flows and the mark: proceeds - cost + mark * open for a long, its negative for a short |
| `Positions.AverageWithin` | apps/server/src/services/position/position.service.ts:37-41 | The average entry price always lies between the lowest and the highest entry so far |
| `Positions.PortfolioTotals` | apps/server/src/services/portfolio/portfolio.service.ts:34-49 | The totals over all open positions; what closed ones realized drops out |
| `Positions.ClosedProfitDropsOut` | apps/server/src/services/portfolio/portfolio.service.ts:35-41 | A position bought at 10 and sold at 15 adds nothing to the reported profit |
| `DepthTable.BuildDepth` | apps/server/src/services/market/depth.service.ts:34-61 | For any table: the first levels of the listing with every price once, the sum of its orders, best price first |
| `DepthTable.DepthIsUnique` | apps/server/src/services/market/depth.service.ts:51-55 | There is only one such listing |
| `DepthTable.DepthIgnoresOrder` | apps/server/src/services/market/depth.service.ts:43-49 | It does not depend on the order of the table |
| `DepthTable.TableIsBook` | apps/server/src/services/market/depth.service.ts:43-59 | For a table of exactly the orders of a sorted queue it is the queue grouped by price, and nothing else is |

## Left out

- BookSideV1.OrderBookSide.Match: a walk that never ends is not run (a buyer's; LostWalkExample.NeverDone), and one down the bids is not followed on to a leaf that has been merged into its left neighbour while it still held other keys. Both are read off the index before the call, by Course.
- BookSideV1.OrderBookSide.BlindIff: for indexes of three levels. In taller ones the condition is the one of CleanBestLevel, deletion by deletion: there a deletion below a child of the old root may fill it from its neighbour.
- EngineV1.Engine.HandleOrderCreated: states one event, for a walk that ends and runs straight. Runs are those of EngineRunsV1.Drive; for indexes of more than one leaf the condition would have to be met at every step, and the code does not see to it.
- EngineV1.LoadFromDb: one market's table. The map from markets to books (index.ts:10-18) is not modelled.
- EngineV2.Execute: the fees and the trade ids of what it reports are left out.
- BPlusTree.BPlusTree.constructor: for order 2 and more. At order 1 a leaf splits with nothing to move; the code only uses 64.
- The ordered maps of the second engine's book are sequences of levels sorted by price; the balance of the map's own tree is not modelled.
- Order ids are taken to be fresh and quantities positive, as the callers see to; sequence numbers are stored by the code and never read.
- Fees of the engines, the trade rows they write, events they publish, and the stop monitor of the first engine: only the order rows and the book are modelled there.
- Fill-or-kill as all or nothing: the code does not do it.
- Settlement of trades made by the first engine: it writes the trade row itself, so the consumer skips the event (engine.ts:92, trade.consumer.ts:53-54).
- Interleaving inside one service call, and a crash between the trade row and the settlement (trade.consumer.ts:65-94): each call is one step. A cancellation is one step after all trades of that order are settled.
- The reserve property for market and stop orders: a market buy reserves the whole balance under a price of 0 (order.service.ts:25-32). Ledger.SlackIsGained accounts for that reserve exactly; no property says it is enough.
- Releases on the expiry of prediction markets, which release the remaining quantity without its price (prediction-expiry.job.ts:33-39).
- The journal: its base entries subtract a fee counted in quote units (ledger.service.ts:143-149), so it does not balance per asset; only balances are modelled. The service's own reserve and release are not called by the order path.
- Risk checks, market status, authentication, margin, funding, liquidation, withdrawal limits, and all I/O (message queues, caches, HTTP, web sockets, price feeds). Marks and wall-clock times are parameters.
- Account validation, derived addresses, signatures and the token program's internals: accounts are the ones named, and a token transfer moves the exact amount or fails. Creating markets and assets is not an instruction here.
- Rounding of decimals beyond that of index keys, and the digits databases keep: arithmetic is exact.
- The text form of prices and quantities in the depth service, and its cache; the per-symbol list of the portfolio, of which only the totals are modelled.
- Position updates are those of one key at a time; that a trade updates the buyer's long and the seller's short position follows from two calls.
