# Producer/consumer queue and sales analysis — a Dafny model

This project models the logic of two small Java assignments and proves properties of it.

**Assignment 1** is a bounded FIFO buffer shared by producer and consumer threads:

- `SharedQueue` holds a list of items and a capacity fixed at construction.
- `put` waits while the size equals the capacity, then appends at the tail.
- `take` waits while the queue is empty, then removes the head.
- A `Producer` puts every item of its source list, in order.
- A `Consumer` takes a fixed number of items and appends each one to its destination list.

The model keeps the classes and their in-place updates: `SharedQueue<T>` has a `seq` field, and
`Producer.Run` and `Consumer.Run` are loops over that object. Each guard that makes a thread wait
becomes a precondition, copied exactly (`|queue| != capacity`, `queue != []`). The interleaving of
many producers and consumers is a separate state machine over values (module `Interleaving`). Its
invariant gives no loss, no duplication and FIFO order.

**Assignment 2** loads sales from CSV lines and analyses them:

- `Sale` is an immutable record with eight fields.
- The loader skips the header and drops blank lines. It splits each remaining line with Java's
  `String.split(",")`, demands exactly eight fields, trims them, and parses the date and the two
  amounts.
- `SalesAnalyzer` is a set of stream pipelines over the list of sales: counts, extremes, filters,
  a partition, stable sorts and top-N, unique sets, groupings, a sorted product string, and a
  month-by-month growth loop.

The pure parts are functions. The growth loop is a method with a `while` loop. The Java library
behaviour the code relies on is modelled exactly in `JavaStrings` and `Sequences`:

- `String.trim`, `split` with its rule of dropping trailing empty strings, `equalsIgnoreCase` and
  `compareTo`;
- `Stream.filter`, `sorted` (stable), `limit`, `distinct`, `max`, `min` and `map` when the mapped
  function throws.

Files: `wrappers.dfy` (Option, Result), `shared_queue.dfy`, `producer.dfy`, `consumer.dfy`,
`interleaving.dfy`, `sale.dfy`, `java_strings.dfy`, `sequences.dfy`, `sales_data_loader.dfy`,
`sales_analyzer.dfy`.

Modelling choices:

- A capacity is any `int`, as in the constructor. Capacity 0 makes the queue permanently full. A
  negative capacity can never be reached, so every `put` proceeds.
- `double` amounts are Dafny `real`s: sums, averages and growth rates are exact.
- `LocalDate.parse` with the `yyyy-MM-dd` formatter and `Double.parseDouble` are parameters of the
  loader (`SalesDataLoader.Parsers`). Each returns `None` where the library throws.
- A thrown `IllegalArgumentException` becomes a `Failure` value: `ParseError` in the loader and
  `LimitError` for a negative `limit`.
- `SalesAnalyzer` copies its input list and never changes it. Its operations are therefore
  functions of a `seq<Sale>`.

## Model

Paths are relative to the repository root.

| member | source | states |
|---|---|---|
| SharedQueues.SharedQueue.constructor | Assignment_1-Producer_Consumer/src/main/java/SharedQueue.java:21-24 | any int is accepted as capacity; the queue starts empty |
| SharedQueues.SharedQueue.Put | Assignment_1-Producer_Consumer/src/main/java/SharedQueue.java:33-46 | proceeds only when size != capacity; appends the item at the tail, earlier items unchanged; keeps 0 <= size <= capacity when capacity >= 0 |
| SharedQueues.SharedQueue.Take | Assignment_1-Producer_Consumer/src/main/java/SharedQueue.java:55-70 | proceeds only when non-empty; returns the old head, and the rest stays in order (FIFO); keeps the bound |
| SharedQueues.SharedQueue.Size | Assignment_1-Producer_Consumer/src/main/java/SharedQueue.java:76-78 | the number of items; nothing changes |
| SharedQueues.SharedQueue.IsEmpty | Assignment_1-Producer_Consumer/src/main/java/SharedQueue.java:84-86 | true iff there are no items |
| SharedQueues.SharedQueue.IsFull | Assignment_1-Producer_Consumer/src/main/java/SharedQueue.java:92-94 | true iff size == capacity |
| SharedQueues.SharedQueue.GetCapacity | Assignment_1-Producer_Consumer/src/main/java/SharedQueue.java:100-102 | the constructor's capacity |
| SharedQueues.ZeroCapacityAlwaysFull | Assignment_1-Producer_Consumer/test/ProducerConsumerTest.java:548-550 | a capacity-0 queue within its bound is full (size == capacity) |
| SharedQueues.NegativeCapacityNeverFull | Assignment_1-Producer_Consumer/src/main/java/SharedQueue.java:92-94 | with negative capacity the size never equals the capacity, so the queue is never full |
| SharedQueues.PutThenTake | Assignment_1-Producer_Consumer/test/ProducerConsumerTest.java:57-71 | put(x) then take() on a fresh queue returns x and leaves it empty |
| SharedQueues.FreshZeroCapacityIsFull | Assignment_1-Producer_Consumer/test/ProducerConsumerTest.java:548-550 | a fresh capacity-0 queue reports full and capacity 0 |
| SharedQueues.NegativeCapacityAcceptsAll | Assignment_1-Producer_Consumer/test/ProducerConsumerTest.java:572-589 | with negative capacity every put proceeds; size grows to the number of items and the queue is never full |
| Producers.Producer.constructor | Assignment_1-Producer_Consumer/src/main/java/Producer.java:26-32 | stores queue, source, name and delay |
| Producers.Producer.Run | Assignment_1-Producer_Consumer/src/main/java/Producer.java:38-61 | when no put would wait: queue becomes old queue + source, in source order; source untouched; bound kept |
| Producers.Producer.GetProducerName | Assignment_1-Producer_Consumer/src/main/java/Producer.java:67-69 | the constructor's name |
| Producers.ProduceIntoFreshQueue | Assignment_1-Producer_Consumer/test/ProducerConsumerTest.java:155-166 | producing a source that fits into a fresh queue leaves exactly the source in it, size = its length |
| Producers.ProduceNothing | Assignment_1-Producer_Consumer/test/ProducerConsumerTest.java:513-522 | an empty source leaves the queue unchanged |
| Consumers.Destination.constructor | Assignment_1-Producer_Consumer/test/ProducerConsumerTest.java:183-198 | the destination list starts empty |
| Consumers.Destination.Add | Assignment_1-Producer_Consumer/src/main/java/Consumer.java:53-55 | appends at the end; earlier entries unchanged |
| Consumers.TakeCount | Assignment_1-Producer_Consumer/src/main/java/Consumer.java:49 | the counted loop runs max(itemsToConsume, 0) times |
| Consumers.Consumer.constructor | Assignment_1-Producer_Consumer/src/main/java/Consumer.java:28-35 | stores queue, destination, name, count and delay |
| Consumers.Consumer.Run | Assignment_1-Producer_Consumer/src/main/java/Consumer.java:41-69 | when no take would wait: destination becomes old destination + first n items of the old queue, queue becomes the rest (n = max(count, 0)); bound kept |
| Consumers.Consumer.GetConsumerName | Assignment_1-Producer_Consumer/src/main/java/Consumer.java:75-77 | the constructor's name |
| Consumers.ConsumeAll | Assignment_1-Producer_Consumer/test/ProducerConsumerTest.java:183-198 | consuming as many items as are queued moves them all, in order, and empties the queue |
| Consumers.ConsumeNonPositive | Assignment_1-Producer_Consumer/test/ProducerConsumerTest.java:761-782 | a count <= 0 leaves destination and queue unchanged |
| Interleaving.InitInv | Assignment_1-Producer_Consumer/src/main/java/SharedQueue.java:21-24 | the start state (empty queue, empty destinations) satisfies the invariant |
| Interleaving.Enabled | Assignment_1-Producer_Consumer/src/main/java/SharedQueue.java:35-38 | a consumer step needs a non-empty queue; a producer step on a queue within its bound needs occupancy strictly below capacity |
| Interleaving.Next | Assignment_1-Producer_Consumer/src/main/java/SharedQueue.java:33-70 | a producer step appends its next item at the tail, a consumer step removes the head and appends it to its destination; the capacity bound is kept |
| Interleaving.PutIsProducerStep | Assignment_1-Producer_Consumer/src/main/java/SharedQueue.java:33-46 | a producer step changes the queue exactly as SharedQueue.Put does |
| Interleaving.TakeIsConsumerStep | Assignment_1-Producer_Consumer/src/main/java/SharedQueue.java:55-70 | a consumer step changes the queue exactly as SharedQueue.Take does and appends the item it returns |
| Interleaving.NextInv | Assignment_1-Producer_Consumer/src/main/java/SharedQueue.java:33-70 | each enabled producer step (put) or consumer step (take + append) preserves FIFO order, conservation of items and the capacity bound |
| Interleaving.RunInv | Assignment_1-Producer_Consumer/src/main/java/SharedQueue.java:33-70 | every run of enabled steps preserves the invariant and the capacity |
| Interleaving.NoLossNoDuplication | Assignment_1-Producer_Consumer/test/ProducerConsumerTest.java:280-297 | after any interleaving that drains the sources and the queue, the destinations together hold exactly the multiset of all source items |
| Interleaving.OccupancyBounded | Assignment_1-Producer_Consumer/src/main/java/SharedQueue.java:35-41 | with capacity >= 0, occupancy never exceeds capacity in any interleaving |
| Interleaving.SingleProducerSingleConsumerInOrder | Assignment_1-Producer_Consumer/test/ProducerConsumerTest.java:211-247 | with one producer and one consumer, a drained run delivers the source item for item in order (the test checks that every item arrives) |
| Sales.DaysInMonth | Assignment_2-Sales_Analysis/src/main/java/com/salesanalysis/model/Sale.java:12 | the `LocalDate` of a sale has a day within its month's length, which lies in 28..31 (proleptic Gregorian calendar) |
| Sales.TotalAmount | Assignment_2-Sales_Analysis/src/main/java/com/salesanalysis/model/Sale.java:82-84 | quantity x unit price; non-negative when both factors are |
| Sales.Month | Assignment_2-Sales_Analysis/src/main/java/com/salesanalysis/model/Sale.java:91-93 | the date's month, always in 1..12 |
| Sales.Year | Assignment_2-Sales_Analysis/src/main/java/com/salesanalysis/model/Sale.java:100-102 | the date's year, within LocalDate's range |
| Sales.SaleEqualsIsEquality | Assignment_2-Sales_Analysis/src/main/java/com/salesanalysis/model/Sale.java:104-117 | equals holds iff all eight fields are equal |
| Sales.SaleEqualsIsEquivalence | Assignment_2-Sales_Analysis/src/main/java/com/salesanalysis/model/Sale.java:104-117 | equals is reflexive, symmetric and transitive |
| JavaStrings.Trim | Assignment_2-Sales_Analysis/src/main/java/com/salesanalysis/loader/SalesDataLoader.java:82-91 | the result is the slice between a blank prefix and a blank suffix, and starts and ends with a non-blank character |
| JavaStrings.TrimEmptyIffBlank | Assignment_2-Sales_Analysis/src/main/java/com/salesanalysis/loader/SalesDataLoader.java:62 | trim() is empty iff every character is at or below U+0020 |
| JavaStrings.TrimIdempotent | Assignment_2-Sales_Analysis/src/main/java/com/salesanalysis/loader/SalesDataLoader.java:82-91 | trimming twice is trimming once |
| JavaStrings.SplitAll | Assignment_2-Sales_Analysis/src/main/java/com/salesanalysis/loader/SalesDataLoader.java:75 | one more piece than delimiters; no piece holds the delimiter |
| JavaStrings.JoinSplitAll | Assignment_2-Sales_Analysis/src/main/java/com/salesanalysis/loader/SalesDataLoader.java:75 | joining the pieces with the delimiter gives back the line |
| JavaStrings.SplitAllJoin | Assignment_2-Sales_Analysis/src/main/java/com/salesanalysis/loader/SalesDataLoader.java:75 | splitting a join of delimiter-free parts gives back the parts |
| JavaStrings.DropTrailingEmpty | Assignment_2-Sales_Analysis/src/main/java/com/salesanalysis/loader/SalesDataLoader.java:75 | a prefix of the pieces that ends in a non-empty piece, with only empty pieces removed |
| JavaStrings.Split | Assignment_2-Sales_Analysis/src/main/java/com/salesanalysis/loader/SalesDataLoader.java:75 | without the delimiter, the whole string; with it, the pieces minus exactly the trailing empty ones (the last field kept is non-empty); no field holds the delimiter |
| JavaStrings.SplitDropsTrailingField | Assignment_2-Sales_Analysis/src/main/java/com/salesanalysis/loader/SalesDataLoader.java:75-78 | a line ending in the delimiter has no more fields than delimiters |
| JavaStrings.SplitIsPrefixOfPieces | Assignment_2-Sales_Analysis/src/main/java/com/salesanalysis/loader/SalesDataLoader.java:75 | the fields are the first pieces of the line, in order |
| JavaStrings.CharEqualsIgnoreCaseIsLowerEquality | Assignment_2-Sales_Analysis/src/main/java/com/salesanalysis/analyzer/SalesAnalyzer.java:182 | the per-character test of equalsIgnoreCase holds iff the lower-case forms agree |
| JavaStrings.EqualsIgnoreCaseIsEquivalence | Assignment_2-Sales_Analysis/src/main/java/com/salesanalysis/analyzer/SalesAnalyzer.java:180-208 | equalsIgnoreCase is reflexive, symmetric and transitive |
| JavaStrings.StringLeTotal | Assignment_2-Sales_Analysis/src/main/java/com/salesanalysis/analyzer/SalesAnalyzer.java:369 | compareTo orders any two strings |
| JavaStrings.StringLeTransitive | Assignment_2-Sales_Analysis/src/main/java/com/salesanalysis/analyzer/SalesAnalyzer.java:369 | compareTo's order is transitive |
| JavaStrings.StringLeAntisymmetric | Assignment_2-Sales_Analysis/src/main/java/com/salesanalysis/analyzer/SalesAnalyzer.java:369 | strings ordered both ways are equal |
| SalesDataLoader.Fields | Assignment_2-Sales_Analysis/src/main/java/com/salesanalysis/loader/SalesDataLoader.java:75 | the comma split of the line: the whole line without a comma, else the pieces minus exactly the trailing empty ones; no field holds a comma |
| SalesDataLoader.TrimmedFieldIsClean | Assignment_2-Sales_Analysis/src/main/java/com/salesanalysis/loader/SalesDataLoader.java:82-91 | a trimmed comma-free column holds no comma and needs no further trimming |
| SalesDataLoader.ParseLine | Assignment_2-Sales_Analysis/src/main/java/com/salesanalysis/loader/SalesDataLoader.java:74-95 | rejected with the field count iff the split does not give 8 fields; with 8 fields, a sale iff the date and both amounts parse, otherwise Malformed(line); the sale's fields are the trimmed columns in order, with parsed date and amounts; text fields are comma-free and trimmed |
| SalesDataLoader.Columns | Assignment_2-Sales_Analysis/src/main/java/com/salesanalysis/loader/SalesDataLoader.java:82-91 | a sale written out has eight columns |
| SalesDataLoader.FieldsOfColumns | Assignment_2-Sales_Analysis/src/main/java/com/salesanalysis/loader/SalesDataLoader.java:75 | a line of two or more clean columns splits into those columns, minus trailing empty ones |
| SalesDataLoader.ParseFormattedLine | Assignment_2-Sales_Analysis/src/main/java/com/salesanalysis/loader/SalesDataLoader.java:74-95 | round trip: a sale written as a line (clean fields, non-empty salesperson) parses back to the same sale |
| SalesDataLoader.EmptyLastFieldRejected | Assignment_2-Sales_Analysis/src/main/java/com/salesanalysis/loader/SalesDataLoader.java:75-79 | a line whose salesperson column is empty ends in a comma, splits short and is rejected |
| SalesDataLoader.WrongColumnCountRejected | Assignment_2-Sales_Analysis/src/test/java/com/salesanalysis/loader/SalesDataLoaderTest.java:77-86 | a line of k != 8 clean columns, last non-empty, is rejected with count k |
| SalesDataLoader.DataLines | Assignment_2-Sales_Analysis/src/main/java/com/salesanalysis/loader/SalesDataLoader.java:60-62 | no lines for an empty input; otherwise the lines after the header, in order, each non-blank line kept as often as it occurs and no blank line kept |
| SalesDataLoader.ParseAll | Assignment_2-Sales_Analysis/src/main/java/com/salesanalysis/loader/SalesDataLoader.java:63-64 | on success one sale per line, in order, each the parse of that line; on failure the error of one of the lines |
| SalesDataLoader.LoadFromStrings | Assignment_2-Sales_Analysis/src/main/java/com/salesanalysis/loader/SalesDataLoader.java:59-65 | on success one sale per kept line, in order, each the parse of that line; on failure the error of a kept line |
| SalesDataLoader.HeaderOnlyLoadsNothing | Assignment_2-Sales_Analysis/src/test/java/com/salesanalysis/loader/SalesDataLoaderTest.java:101-111 | a header alone (whatever it says), or no line at all, loads no sales |
| SalesDataLoader.BlankLineIgnored | Assignment_2-Sales_Analysis/src/test/java/com/salesanalysis/loader/SalesDataLoaderTest.java:61-75 | inserting a blank line after the header does not change the outcome |
| Sequences.Filter | Assignment_2-Sales_Analysis/src/main/java/com/salesanalysis/analyzer/SalesAnalyzer.java:168-172 | every kept element satisfies the predicate |
| Sequences.FilterKeepsMatches | Assignment_2-Sales_Analysis/src/main/java/com/salesanalysis/analyzer/SalesAnalyzer.java:168-172 | every element satisfying the predicate is kept as often as it occurs |
| Sequences.FilterIsSubsequence | Assignment_2-Sales_Analysis/src/main/java/com/salesanalysis/analyzer/SalesAnalyzer.java:168-172 | the filter keeps the input order |
| Sequences.FilterComplement | Assignment_2-Sales_Analysis/src/main/java/com/salesanalysis/analyzer/SalesAnalyzer.java:353-358 | filtering by p and by not-p splits the input: lengths add up, multisets add up |
| Sequences.StableSort | Assignment_2-Sales_Analysis/src/main/java/com/salesanalysis/analyzer/SalesAnalyzer.java:230-234 | the output is a permutation of the input |
| Sequences.StableSortSorted | Assignment_2-Sales_Analysis/src/main/java/com/salesanalysis/analyzer/SalesAnalyzer.java:230-234 | under a total-preorder comparator the output is sorted |
| Sequences.StableSortStable | Assignment_2-Sales_Analysis/src/main/java/com/salesanalysis/analyzer/SalesAnalyzer.java:230-234 | elements the comparator ranks equal keep their input order |
| Sequences.Distinct | Assignment_2-Sales_Analysis/src/main/java/com/salesanalysis/analyzer/SalesAnalyzer.java:368 | no duplicates, and exactly the elements of the input |
| Sequences.PermutationKeepsNoDuplicates | Assignment_2-Sales_Analysis/src/main/java/com/salesanalysis/analyzer/SalesAnalyzer.java:368-369 | sorting a duplicate-free list keeps it duplicate-free |
| Sequences.SortedDistinctUnique | Assignment_2-Sales_Analysis/src/main/java/com/salesanalysis/analyzer/SalesAnalyzer.java:368-369 | two sorted duplicate-free lists with the same elements are equal |
| Sequences.MapAll | Assignment_2-Sales_Analysis/src/main/java/com/salesanalysis/loader/SalesDataLoader.java:63-64 | success iff every element maps; then one result per element in order; otherwise the error of the first element that fails, with no partial list |
| Sequences.MaxBy | Assignment_2-Sales_Analysis/src/main/java/com/salesanalysis/analyzer/SalesAnalyzer.java:63-66 | None iff empty; otherwise the first element of largest key |
| Sequences.MinBy | Assignment_2-Sales_Analysis/src/main/java/com/salesanalysis/analyzer/SalesAnalyzer.java:71-74 | None iff empty; otherwise the first element of smallest key |
| Sequences.SumOfAppend | Assignment_2-Sales_Analysis/src/main/java/com/salesanalysis/analyzer/SalesAnalyzer.java:28-32 | a sum over a concatenation is the sum of the sums |
| SalesAnalyzer.CountTotalTransactions | Assignment_2-Sales_Analysis/src/main/java/com/salesanalysis/analyzer/SalesAnalyzer.java:47-49 | the number of sales; getSalesCount (lines 398-400) is the same |
| SalesAnalyzer.FindHighestValueSale | Assignment_2-Sales_Analysis/src/main/java/com/salesanalysis/analyzer/SalesAnalyzer.java:63-66 | empty iff no sales; otherwise a sale of the input with the largest amount, the first such |
| SalesAnalyzer.FindLowestValueSale | Assignment_2-Sales_Analysis/src/main/java/com/salesanalysis/analyzer/SalesAnalyzer.java:71-74 | empty iff no sales; otherwise a sale of the input with the smallest amount, the first such |
| SalesAnalyzer.FilterSalesAboveAmount | Assignment_2-Sales_Analysis/src/main/java/com/salesanalysis/analyzer/SalesAnalyzer.java:168-172 | every kept sale's amount is strictly above the minimum |
| SalesAnalyzer.FilterSalesAboveAmountComplete | Assignment_2-Sales_Analysis/src/main/java/com/salesanalysis/analyzer/SalesAnalyzer.java:168-172 | the result keeps input order and every sale above the minimum, as often as it occurs |
| SalesAnalyzer.FilterByCategory | Assignment_2-Sales_Analysis/src/main/java/com/salesanalysis/analyzer/SalesAnalyzer.java:180-184 | every kept sale's category equals the argument ignoring case |
| SalesAnalyzer.FilterByRegion | Assignment_2-Sales_Analysis/src/main/java/com/salesanalysis/analyzer/SalesAnalyzer.java:192-196 | every kept sale's region equals the argument ignoring case |
| SalesAnalyzer.FindSalesBySalesperson | Assignment_2-Sales_Analysis/src/main/java/com/salesanalysis/analyzer/SalesAnalyzer.java:204-208 | every kept sale's salesperson equals the argument ignoring case |
| SalesAnalyzer.FieldFilterComplete | Assignment_2-Sales_Analysis/src/main/java/com/salesanalysis/analyzer/SalesAnalyzer.java:180-208 | each of the three filters keeps input order and every matching sale |
| SalesAnalyzer.FieldFilterIgnoresCase | Assignment_2-Sales_Analysis/src/test/java/com/salesanalysis/analyzer/SalesAnalyzerTest.java:219-225 | arguments equal ignoring case select the same sales |
| SalesAnalyzer.PartitionSalesByValue | Assignment_2-Sales_Analysis/src/main/java/com/salesanalysis/analyzer/SalesAnalyzer.java:353-358 | keys true and false; true holds amounts >= threshold, false the rest; lengths sum to the input's; together they are the input as a multiset |
| SalesAnalyzer.PartitionKeepsOrder | Assignment_2-Sales_Analysis/src/main/java/com/salesanalysis/analyzer/SalesAnalyzer.java:353-358 | both sides keep the input order |
| SalesAnalyzer.GetTopNSalesByAmount | Assignment_2-Sales_Analysis/src/main/java/com/salesanalysis/analyzer/SalesAnalyzer.java:218-223 | fails iff n < 0; otherwise min(n, count) sales, a prefix of the stable sort by descending amount |
| SalesAnalyzer.TopNOrdered | Assignment_2-Sales_Analysis/src/test/java/com/salesanalysis/analyzer/SalesAnalyzerTest.java:232-241 | amounts never increase along the top-N list |
| SalesAnalyzer.TopNDominates | Assignment_2-Sales_Analysis/src/main/java/com/salesanalysis/analyzer/SalesAnalyzer.java:218-223 | no sale left out of the top-N list has a larger amount than a sale kept |
| SalesAnalyzer.TopNFromInput | Assignment_2-Sales_Analysis/src/main/java/com/salesanalysis/analyzer/SalesAnalyzer.java:218-223 | every kept sale comes from the input, no more often than it occurs there |
| SalesAnalyzer.TopNStable | Assignment_2-Sales_Analysis/src/main/java/com/salesanalysis/analyzer/SalesAnalyzer.java:218-223 | among sales of equal amount the kept ones appear in input order |
| SalesAnalyzer.GetSalesSortedByDate | Assignment_2-Sales_Analysis/src/main/java/com/salesanalysis/analyzer/SalesAnalyzer.java:230-234 | a permutation of the sales |
| SalesAnalyzer.SortedByDateOrdered | Assignment_2-Sales_Analysis/src/test/java/com/salesanalysis/analyzer/SalesAnalyzerTest.java:243-251 | dates never decrease, and sales of the same date keep the input order |
| SalesAnalyzer.Image | Assignment_2-Sales_Analysis/src/main/java/com/salesanalysis/analyzer/SalesAnalyzer.java:243-280 | a key is in the set iff some sale has it |
| SalesAnalyzer.ImageBounds | Assignment_2-Sales_Analysis/src/main/java/com/salesanalysis/analyzer/SalesAnalyzer.java:243-280 | at most as many distinct keys as sales; none iff no sales |
| SalesAnalyzer.UniqueProducts | Assignment_2-Sales_Analysis/src/main/java/com/salesanalysis/analyzer/SalesAnalyzer.java:243-247 | exactly the products of the sales |
| SalesAnalyzer.UniqueCategories | Assignment_2-Sales_Analysis/src/main/java/com/salesanalysis/analyzer/SalesAnalyzer.java:254-258 | exactly the categories of the sales |
| SalesAnalyzer.UniqueRegions | Assignment_2-Sales_Analysis/src/main/java/com/salesanalysis/analyzer/SalesAnalyzer.java:265-269 | exactly the regions of the sales |
| SalesAnalyzer.UniqueSalespersons | Assignment_2-Sales_Analysis/src/main/java/com/salesanalysis/analyzer/SalesAnalyzer.java:276-280 | exactly the salespersons of the sales |
| SalesAnalyzer.CountBy | Assignment_2-Sales_Analysis/src/main/java/com/salesanalysis/analyzer/SalesAnalyzer.java:128-134 | keys are exactly the keys that occur; each count is the size of its group and positive |
| SalesAnalyzer.CountSalesByProduct | Assignment_2-Sales_Analysis/src/main/java/com/salesanalysis/analyzer/SalesAnalyzer.java:128-134 | keys are exactly the unique products; each count is the number of sales of that product, and positive |
| SalesAnalyzer.CountsSumToSize | Assignment_2-Sales_Analysis/src/test/java/com/salesanalysis/analyzer/SalesAnalyzerTest.java:144-152 | the counts of a grouping add up to the number of sales |
| SalesAnalyzer.TotalRevenue | Assignment_2-Sales_Analysis/src/main/java/com/salesanalysis/analyzer/SalesAnalyzer.java:28-32 | 0 for no sales; never negative when no sale has a negative quantity or price |
| SalesAnalyzer.AverageOrderValue | Assignment_2-Sales_Analysis/src/main/java/com/salesanalysis/analyzer/SalesAnalyzer.java:37-42 | 0 with no sales; otherwise average x count = total revenue |
| SalesAnalyzer.TotalRevenueAdditive | Assignment_2-Sales_Analysis/src/main/java/com/salesanalysis/analyzer/SalesAnalyzer.java:28-32 | revenue of a concatenation is the sum of the revenues |
| SalesAnalyzer.RevenueBy | Assignment_2-Sales_Analysis/src/main/java/com/salesanalysis/analyzer/SalesAnalyzer.java:81-109 | keys are exactly the keys that occur |
| SalesAnalyzer.RevenuesSumToTotal | Assignment_2-Sales_Analysis/src/main/java/com/salesanalysis/analyzer/SalesAnalyzer.java:81-109 | the group revenues add up to the total revenue |
| SalesAnalyzer.RevenueByCategory | Assignment_2-Sales_Analysis/src/main/java/com/salesanalysis/analyzer/SalesAnalyzer.java:81-87 | keys are exactly the unique categories |
| SalesAnalyzer.RevenueByRegion | Assignment_2-Sales_Analysis/src/main/java/com/salesanalysis/analyzer/SalesAnalyzer.java:92-98 | keys are exactly the unique regions |
| SalesAnalyzer.RevenueBySalesperson | Assignment_2-Sales_Analysis/src/main/java/com/salesanalysis/analyzer/SalesAnalyzer.java:103-109 | keys are exactly the unique salespersons |
| SalesAnalyzer.RevenueByMonth | Assignment_2-Sales_Analysis/src/main/java/com/salesanalysis/analyzer/SalesAnalyzer.java:114-121 | keys are the months that have sales, all in 1..12 |
| SalesAnalyzer.GetAllProductsAsString | Assignment_2-Sales_Analysis/src/main/java/com/salesanalysis/analyzer/SalesAnalyzer.java:365-371 | the empty string when there are no sales |
| SalesAnalyzer.SortedDistinctProductsSpec | Assignment_2-Sales_Analysis/src/test/java/com/salesanalysis/analyzer/SalesAnalyzerTest.java:366-373 | the joined names are strictly ascending and are exactly the unique products |
| SalesAnalyzer.AllProductsDependsOnlyOnProductSet | Assignment_2-Sales_Analysis/src/main/java/com/salesanalysis/analyzer/SalesAnalyzer.java:365-371 | two sale lists with the same product set give the same string |
| SalesAnalyzer.GrowthRateInverse | Assignment_2-Sales_Analysis/src/main/java/com/salesanalysis/analyzer/SalesAnalyzer.java:384 | applying the rate to the previous revenue gives back the current one |
| SalesAnalyzer.GrowthRates | Assignment_2-Sales_Analysis/src/main/java/com/salesanalysis/analyzer/SalesAnalyzer.java:377-391 | a month gets an entry iff it has revenue and the latest earlier month with revenue has non-zero revenue; the entry is the percentage change from that month |
| SalesAnalyzer.CalculateMonthlyGrowthRate | Assignment_2-Sales_Analysis/src/main/java/com/salesanalysis/analyzer/SalesAnalyzer.java:377-391 | the same, over the revenue by month of the sales |
| SalesAnalyzer.PreviousRevenueIsLatestEarlierMonth | Assignment_2-Sales_Analysis/src/main/java/com/salesanalysis/analyzer/SalesAnalyzer.java:381-388 | the remembered revenue is that of the latest earlier month with revenue; none iff no earlier month has any |
| SalesAnalyzer.FirstMonthHasNoGrowth | Assignment_2-Sales_Analysis/src/main/java/com/salesanalysis/analyzer/SalesAnalyzer.java:383 | the first month with sales never has a growth entry |

## Left out

- Monitor plumbing is not modelled: `synchronized`, `wait`/`notifyAll`, `Thread.sleep` pacing,
  `InterruptedException` handling and thread names. A guard that makes a thread wait becomes a
  precondition. Real scheduling is replaced by the step sequences of `Interleaving`.
- Interleaving.Next: a consumer step is one `take` together with the append to that consumer's
  destination. In `Consumer.run` these are two separate critical sections, on the queue and on the
  destination, so another thread can act between them. Each consumer has its own destination
  here, so per-consumer order is kept. When several consumers share one list, the order of their
  appends can differ from the order of their takes; the model does not capture that.
- Console logging in `put`, `take` and the `run` methods is output only and is not modelled.
- The demo classes `ProducerConsumerDemo` and `Main` are wiring and formatting; they are not part of this model.
- The producer's source list is a `seq` value, so reading it cannot change it. The consumer's
  destination is its own small class, so appends happen in place.
- `loadFromFile` and `loadFromResource` are not modelled: they read files and classpath
  resources, then call `parseLines`, which is modelled.
- The internals of `LocalDate.parse` (including the SMART resolver's clamping of day-of-month) and
  of `Double.parseDouble` are parameters of the loader, not models.
- Floating point is not modelled: `double` values are exact reals. Rounding, the summation order
  of `DoubleStream.sum`, NaN, infinities and -0.0 are out of scope.
- `calculateTotalQuantitySold`, `calculateAverageOrderValueByRegion`,
  `calculateRevenueByCategoryAndRegion`, `calculateCategoryRevenuePercentage` and
  `getSaleAmountStatistics` are not modelled. They are further floating-point aggregates built
  the same way as `RevenueBy` and `AverageOrderValue`.
- `findTopSalesperson`, `findBestSellingProductByQuantity` and `findBestSellingCategory` are not
  modelled. They take the maximum over a `HashMap`'s entries, and which entry wins a tie depends
  on hash iteration order.
- `Sale.toString` formatting and `hashCode` are not modelled. Since `equals` is field equality
  (SaleEqualsIsEquality), any hash of the fields agrees with it.
- JavaStrings.EqualsIgnoreCase: case mapping covers ASCII letters only. Java's full Unicode case
  tables are not modelled.
- JavaStrings.StringLe: characters compare by code point, whereas Java compares UTF-16 code units.
  The two agree outside surrogate pairs.
- JavaStrings.Split: only a one-character delimiter that is not a regular-expression
  metacharacter is modelled. That is the only case the loader uses.
- SalesAnalyzer.GetAllProductsAsString: its own contract says only that no sales give the empty
  string. Its content is stated by SortedDistinctProductsSpec and
  AllProductsDependsOnlyOnProductSet.
