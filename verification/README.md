# The read path of the SQL engine, modelled and proved

This project models how the engine answers a SELECT over its ordered key-value store, and proves
that the answers are right. `dafny verify dfyconfig.toml` checks all of it.

## What is modelled

* **WHERE to index ranges.** `Predicates`, `QueryRewriter`, `QueryTexts`, `KeyRange`, `RangeOrder`, `Scan`, `Plans`
  and `Planner` follow a predicate tree from its rewriting to a disjunction of conjunctions, through
  one interval of multi-column keys for each conjunction with its residual filter, to a single scan,
  a union of scans or a full scan. `Planner.ExecuteSelect` is the whole way: it builds the plan with the
  classes of the other modules, runs it over the cursor, and its rows are exactly those of the table
  that satisfy the predicate as it was written, in key order, ascending or descending as asked.
* **Rows as bytes.** `Values` is the order of column values, `RowCodec` writes, reads, skips and compares
  rows; the byte comparison is the order of values that the scans rely on.
* **Streaming operators.** `GroupBy` aggregates runs of equal keys, and `GroupKeys` shows that these are the
  aggregates over all rows of each key, whatever their order. `Sort` sorts rows kept in the block
  buffer of `ExecBuffer`, and `SelectPlan` is the plan tree of a SELECT with the requests for a sort
  order that go down it (`PlanRequests`). `SelectBuilder` builds it: when all items of a GROUP BY or an ORDER BY
  are granted the sort is left out, and the output is sorted all the same and has the same rows. `ColumnTypes` shows
  that the values delivered have the types that the plans announce. These plans are values; `Scan.ScanEnsures` and
  `Sort.SortEnsures`, which they use, are what the methods of the heap classes `LevelDBScanPlan`, `UnionAllPlan` and
  `SortPlan` are proved to do.
* **A SELECT from end to end.** `Query.Execute` puts the operators over the plan that `Planner` builds for
  the WHERE and runs the whole: the rows are those of the table that satisfy the predicate as it was written,
  grouped with the aggregates over each group, without the groups that HAVING refuses, and sorted by the
  ORDER BY list, whichever plan was chosen and whichever sorts were left out; it ends in an error only for a
  sum that `add` refuses.
* **Result streaming.** `PgWriter` is the bounded message buffer with its lengths written back, `Session`
  the loop that flushes a full buffer and tries the row again, `Protocol` the error message with its retry. A
  client that reads the bytes back is the partner of all: it gets every row once, in order, with the values
  of its columns, and then the closing messages, each of the kind and in the place that the protocol gives it.
* **Separated files.** `ReadFile` is the tokenizer that compacts a line in place while the tokens already
  taken point into it, proved equal to one with a buffer of its own.
* `Seqs`, `Multisets`, `Source` and `StdSort` are what the others share: sequences, what does not depend on
  their order, a child plan that delivers given rows, and `std::sort` as some sorted permutation.

The store is a strictly ascending sequence of rows with a cursor that compares the stored bytes of their keys,
so every statement is about all tables whose keys can be read back column by column. Column values are integers
of the widths of the C++ types, byte strings of up to 65534 bytes with the marker above all strings that ranges
use, and the reals that averages are.

## What turned out not to hold

Where the code does not do what its name or its documentation suggests, the model does what the code does, a
lemma shows the input, and the condition under which the code is right is proved.

* `NOT IN` becomes an OR of `!=` (common/QueryRewritter.cpp:108-122). That is its meaning exactly when
  the list holds one value (`QueryRewriter.NotInExactly`).
* The size of a string in a row is compared with the marker after 2 has been added
  (execution/DBDataTypeHandler.cpp:323-329). Skipping columns works exactly when no column but the last is the
  marker or a string of 65533 bytes (`RowCodec.SkippingExactly`).
* The planner compares only neighbours. Sorted ranges with neighbours apart are disjoint exactly when the
  non-degenerate ones are pairwise apart (`RangeOrder.DisjointExactly`), and the union delivers the selection exactly
  when no row of the table satisfies two of the disjuncts (`Planner.UnionOfRangesDelivers`). Of
  `k <= 1 OR (k > 1 AND k < 1) OR k >= 1` the row with the key 1 is delivered twice
  (`RangeOrder.DegenerateRangeHidesOverlap`, `Planner.DegenerateRangeDeliversTwice`).
* Solved predicates are remembered by their text (execution/KeySearchRange.cpp:35-36), so `k = ? AND k = ?`
  is right exactly when both values are equal (`Planner.SameTextLosesAPredicate`). Of any comparisons with one text
  only the last counts: on the first key column that is right exactly when the last value is the tightest, on other
  columns always (`Planner.OneTextExactly`). For any conjunction whose texts fix operators and columns the range is
  right exactly when each bound behind it is the tightest of those with its text, or it holds no key
  (`KeyRange.IntervalMeansSolvedExactly`).
* An open sort request overwrites the direction that a union has recorded (execution/UnionAllPlan.h:101), and a
  subquery sorted in descending order is delivered in the wrong order (`PlanRequests.ForgottenDirection`). Exactly an
  open request for the next key column to a union that runs reversed has this effect
  (`PlanRequests.UnionStaysInStepExactly`), and the next request for a direction puts the union right again
  (`PlanRequests.GrantedIsInStep`). In between, a GROUP BY over the union still gets equal keys side by side exactly
  when children that share such a key have no other (`SelectPlan.UnionGroupedExactly`, `PlanRequests.SplitGroup`); the
  children of a planned union have that property when no overlap of ranges is hidden from the planner's check
  (`Query.PlannerUnionIsWhole`).
* Sums are formed in 64 bits and compared with the limits of the column's type then
  (execution/DBDataTypeHandler.cpp:103-107). Two 64-bit values of 2^63-1 add up to -2 without an error
  (`GroupBy.SilentOverflow`), and under a union all integers are of 64 bits (execution/UnionAllPlan.h:64-75). A sum is
  exact exactly when 64 bits hold it (`GroupBy.SumIsExact`); in a narrower type every accepted sum is
  (`GroupBy.AcceptedSumsAreExact`). C++ leaves such an overflow undefined; the model takes two's complement.
* A column that is not aggregated comes from the first row of its group (execution/GroupByPlan.cpp:61-68), so leaving
  a sort out can change it. The group rows do not depend on the order of the rows exactly when every such column is
  in the GROUP BY list (`GroupKeys.OrderIrrelevantExactly`).
* `begin` clears the buffer-full flag (server/PgDataWriter.cpp:22). What is prepared after a message is what was
  prepared before and the message exactly when there is room and the message does not begin behind the rest of one
  that overflowed (`PgWriter.PgDataWriter.WriteMessage`). `buildException` begins the ready message there
  (server/PostgresProtocol.cpp:147-151): an error text that does not go into the buffer is never cut short, and the
  client gets one garbled message instead of two. The two messages come out as they should exactly when the error
  message fits or the ready message does not fit behind what it leaves (`Protocol.BuildException`,
  `Protocol.LongTextIsForgotten`).
* A row larger than the whole buffer is tried again without any progress
  (`Session.SessionInfo.HandleExecutionResult`).
* A doubled quote is one quote only at the start and at the end of a quoted field: `"a""b"` is read as `ab`, and an
  empty field between quotes as a quote (`ReadFile.QuoteInsideIsLost`). A field between quotes, with its own quotes
  doubled, is read back exactly when some character of it is no quote and no quote stands between two such characters
  (`ReadFile.QuotedExactly`); `ReadFile.LineRoundTrip` gives a way to write every field.

## Model

| member | source | states |
|---|---|---|
| Values.CompareMeaning | execution/DBDataTypeHandler.cpp:390-401 | a value compares below another if and only if, for numbers, it is the smaller one, and for strings, it is a proper prefix or has the smaller byte at the first difference, whatever the lengths are; the marker is above all strings |
| Values.CompareOrder | execution/DBDataTypeHandler.cpp:390-401 | comparing the other way round negates the result, and it is zero only for equal values |
| Values.CompareTransitive | execution/DBDataTypeHandler.cpp:109-118 | the comparison of column values is transitive |
| Values.LexTransitive | execution/DataRow.cpp:36-54 | so is the comparison of rows column by column, strictly when one of the steps is strict |
| Values.LexMeaning | execution/DataRow.cpp:36-54 | a row compares below another if and only if there is a column in which it does and before which they agree |
| Values.MinMaxBound | execution/DBDataTypeHandler.cpp:315-321 | the minimum and maximum of a type bound every value of it, the string maximum strictly |
| Predicates.LikeMeaning | execution/FilterPlan.cpp:44-46 | LIKE holds if and only if the string on the left has the one on the right in it: it is p + t + q for some p and q |
| Predicates.ComparisonMeaning | execution/FilterPlan.cpp:47-62 | the six other operators say of numbers, and of all values, what they are written for |
| QueryRewriter.RewriteInOrNotIn | common/QueryRewritter.cpp:94-123 | the loop over the values builds the OR of comparisons, or the one comparison of a single value; what they mean and which texts they get is in the rows on `RewriteInMeaning`, `MadeTextsTell` and `RewrittenTextsAgree` |
| QueryRewriter.CollectOrOperators | common/QueryRewritter.cpp:135-172 | the loops collect the disjuncts: the cross product under AND, all of them under OR |
| QueryRewriter.LiftPreservesMeaning | common/QueryRewritter.cpp:83-92 | under every valuation of the leaves, some collected disjunct holds exactly when the tree holds |
| QueryRewriter.LiftedShape | common/QueryRewritter.cpp:135-172 | no disjunct contains an OR; their number multiplies over AND and adds over OR, is at least 2 when there is an OR and at most 2 to the power of the leaves less one |
| QueryRewriter.RewriteShape | common/QueryRewritter.cpp:83-92 | a rewritten predicate is free of OR or is an OR of at least two disjuncts that are |
| QueryRewriter.RewriteInMeaning | common/QueryRewritter.cpp:94-123 | the rewriting of IN, and of NOT IN with one value, keeps its meaning on every row |
| QueryRewriter.NotInExactly | common/QueryRewritter.cpp:108-122 | the rewriting of NOT IN keeps its meaning on all rows if and only if the list holds one value |
| QueryRewriter.RewritePreservesMeaning | common/QueryRewritter.cpp:83-172 | a parsed predicate and its rewriting hold on the same rows |
| QueryTexts.MadeTextsTell | common/QueryRewritter.cpp:107-113 | when texts fix operands and items hold no operator, two comparisons made from IN have one text if and only if item, value and operator are the same |
| QueryTexts.RewrittenTextsAgree | common/QueryRewritter.cpp:107-116 | texts that tell the comparisons and IN lists of a parsed predicate apart tell the comparisons of every disjunct of its rewriting apart |
| QueryTexts.RewrittenConstantsFit | common/QueryRewritter.cpp:107-116 | constants and list values that fit their key columns in the parsed predicate fit them in every disjunct |
| KeyRange.KeySearchRange.constructor | execution/KeySearchRange.cpp:6-133 | the object holds the interval and the solved texts that the conjunction determines |
| KeyRange.KeySearchRange.SetPredicateInfo | execution/KeySearchRange.cpp:181-227 | one comparison more: equality wins over `>`, which wins over `>=`; `<` wins over `<=`; otherwise the last one wins |
| KeyRange.KeySearchRange.DropUnusable | execution/KeySearchRange.cpp:18-68 | the first loop keeps the equalities up to the first column without one, the bounds on that column and nothing behind it, and sets the four flags and the solved texts accordingly |
| KeyRange.KeySearchRange.FillKeys | execution/KeySearchRange.cpp:71-119 | the second loop fills both keys, with minima and maxima behind an inequality |
| KeyRange.PickStep | execution/KeySearchRange.cpp:181-227 | one more comparison changes at most the slot of its column, or the upper bound |
| KeyRange.LowerPickExactly | execution/KeySearchRange.cpp:181-227 | the bound kept for a column is that of the last `=` on it, without one of the last `>`, and without that of the last `>=` |
| KeyRange.UpperPickExactly | execution/KeySearchRange.cpp:181-227 | the one upper bound kept is that of the last `<`, and without one of the last `<=`, whatever their columns |
| KeyRange.UsedExactly | execution/KeySearchRange.cpp:18-68 | the bounds behind the interval are exactly the kept ones on columns with an equality on every column before them, the upper one only on the first column without an equality |
| KeyRange.RangeIsValid | execution/KeySearchRange.cpp:71-119 | the keys of an interval fit their columns, and the seek flags go with the padding |
| KeyRange.RangeMeaning | execution/KeySearchRange.cpp:71-119 | a storable key lies in the interval if and only if it satisfies every bound behind it |
| KeyRange.SolvedMeaning | execution/KeySearchRange.cpp:35-60 | when each of those bounds is the tightest with its text, they hold if and only if all comparisons recorded as solved hold on the row, constants on the left included |
| KeyRange.IntervalMeansSolved | execution/KeySearchRange.cpp:6-133 | then the key of a row lies in the interval if and only if the row satisfies every comparison recorded as solved |
| KeyRange.IntervalMeansSolvedExactly | execution/KeySearchRange.cpp:35-60 | when texts fix operators and columns, this is true on all rows if and only if each bound behind the interval is the tightest of the comparisons with its text, or the interval holds no key |
| KeyRange.OutsideFails | execution/KeySearchRange.cpp:35-60 | a row whose key is outside the interval fails some comparison recorded as solved, whatever the texts are |
| RangeOrder.EndsBeforeStarts | planbuilder/LevelDBPlanBuilder.cpp:96-112 | in sorted ranges with neighbours apart no range ends above the start of a later one |
| RangeOrder.ApartMeansBelow | execution/KeySearchRange.cpp:342-359 | every key of a range is below every key of a range that starts after its end |
| RangeOrder.NeighboursSuffice | planbuilder/LevelDBPlanBuilder.cpp:101-112 | without degenerate ranges, checking the neighbours is checking all pairs |
| RangeOrder.DisjointExactly | planbuilder/LevelDBPlanBuilder.cpp:101-112 | ranges that pass the check share no storable key if and only if the non-degenerate ones are pairwise apart |
| RangeOrder.DegenerateRangeHidesOverlap | execution/KeySearchRange.cpp:319-340 | the ranges of `k <= v`, `k > v AND k < v` and `k >= v` pass the check, and the key v is in two of them |
| Scan.LevelDBIterator.Seek | execution/LevelDBHandler.h:64-98 | the cursor is on the first row whose stored key does not compare below the encoded bound, which is the first row whose key is not below it |
| Scan.LevelDBIterator.CompareKey | execution/DataRow.cpp:36-54 | comparing the bytes of a stored key with those of a bound, markers and all, is comparing the values |
| Scan.SeekStart | execution/KeySearchRange.cpp:229-248 | the cursor is on the first row that the start of the range does not exclude |
| Scan.SeekStartReversed | execution/KeySearchRange.cpp:249-273 | the cursor is on the last row that the end of the range does not exclude, or before the first row |
| Scan.HitsAreTheRowsInRange | execution/LevelDBScanPlan.cpp:65-112 | the stretch of the table that a scan walks is exactly its rows with keys in the range |
| Scan.RunStep | execution/LevelDBScanPlan.cpp:65-112 | at the next position the end test passes exactly when there is a next row, in both directions |
| Scan.LevelDBScanPlan.Begin | execution/LevelDBScanPlan.cpp:52-63 | a run is to deliver the rows of the range in the direction of the scan, the whole table without a predicate |
| Scan.LevelDBScanPlan.Next | execution/LevelDBScanPlan.cpp:65-112 | delivers the first of the rows still to come, or says that there is none |
| Scan.LevelDBScanPlan.EnsureSortOrder | execution/LevelDBScanPlan.cpp:117-137 | grants key columns in their places in one direction, and takes on the first direction asked for |
| Scan.FullRangeHitsAll | execution/LevelDBScanPlan.cpp:59-61 | the range of no predicate is the whole table |
| Plans.FilterPlan.AddPredicate | execution/FilterPlan.cpp:144-149 | appends the conjunction's leaves that are not solved, and says whether there are any |
| Plans.FilterPlan.DoAddPredicate | execution/FilterPlan.cpp:88-142 | the leaves that are not solved, left to right |
| Plans.FilterPlan.Next | execution/FilterPlan.cpp:68-86 | the rows delivered are those of the child that satisfy one of the conjunctions; `LikeMeaning` and `ComparisonMeaning` say what that is |
| Plans.ScanNode.EnsureSortOrder | execution/BasePlan.h:49-52 | a filter passes the request to its scan, and a scan that turns reverses what the node delivers |
| Plans.UnionAllPlan.EnsureSortOrder | execution/UnionAllPlan.h:89-103 | the children are asked in turn up to the first refusal and each turns as its own direction and key allow; the union records the request if and only if all accept |
| Plans.UnionAllPlan.Begin | execution/UnionAllPlan.cpp:16-23 | a run is to deliver the children's rows in turn, in reverse order of the children when descending |
| Plans.UnionAllPlan.Next | execution/UnionAllPlan.cpp:25-37 | delivers the first of the rows still to come, passing over children without rows |
| Planner.NeedFilterExactly | planbuilder/LevelDBPlanBuilder.cpp:63-71 | a filter is planned if and only if some leaf is not solved |
| Planner.SplitLosesNothing | planbuilder/LevelDBPlanBuilder.cpp:51-61 | a row is in the key range and passes the residual filter if and only if it satisfies the conjunction |
| Planner.SameTextLosesAPredicate | execution/KeySearchRange.cpp:35-36 | `k = ? AND k = ?` is planned rightly for all keys if and only if both parameters have one value |
| Planner.OneTextExactly | execution/KeySearchRange.cpp:35-60 | any comparisons with one text: range and filter agree with them on all keys if and only if the column is not the first of the key or the last value is the tightest |
| Planner.MakeScanPlan | planbuilder/LevelDBPlanBuilder.cpp:32-61 | a scan of the range with the filter it needs, or of the table with all disjuncts as its filter |
| Planner.ConjunctionDelivers | planbuilder/LevelDBPlanBuilder.cpp:51-60 | that scan delivers exactly the rows that satisfy the conjunction |
| Planner.FallbackDelivers | planbuilder/LevelDBPlanBuilder.cpp:41-49 | the full scan delivers exactly the rows that satisfy a disjunct |
| Planner.InTurnIsAll | planbuilder/LevelDBPlanBuilder.cpp:113-121 | when the rows of earlier disjuncts are below those of later ones, these rows in turn are the rows that satisfy a disjunct, each once and in key order |
| Planner.NothingHidden | planbuilder/LevelDBPlanBuilder.cpp:101-112 | no overlap escapes the neighbour check when no range is degenerate, or when the ranges are pairwise apart |
| Planner.BuildUnionAll | planbuilder/LevelDBPlanBuilder.cpp:75-124 | a union whose children are in sorted order, each solving something, with neighbours apart; the fallback only when a disjunct solves nothing or, in sorted order, neighbours are not apart |
| Planner.NothingHiddenExactly | planbuilder/LevelDBPlanBuilder.cpp:96-112 | no overlap escapes it if and only if no key is in two of the ranges, in whichever order the sort leaves ranges that pass it |
| Planner.UnionOfRangesDelivers | planbuilder/LevelDBPlanBuilder.cpp:96-121 | a built union delivers exactly the rows that satisfy a disjunct, each once and in key order, if and only if no row of the table satisfies two of them |
| Planner.SupportedByRanges | planbuilder/LevelDBPlanBuilder.cpp:101-112 | without hidden overlaps of the ranges no row does, whatever the table holds |
| Planner.DegenerateRangeDeliversTwice | planbuilder/LevelDBPlanBuilder.cpp:101-121 | `k <= v OR (k > v AND k < v) OR k >= v` is built as a union, and from the table with the key v it delivers that row twice |
| Planner.BuildSelectPlan | planbuilder/LevelDBPlanBuilder.cpp:75-124 | a single scan delivers the selected rows, and a union does if and only if no row of the table satisfies two disjuncts |
| Planner.PlannableAsWritten | execution/KeySearchRange.cpp:35-60 | the planner is right about every disjunct of a predicate whose constants fit and whose texts tell its comparisons and IN lists apart |
| Planner.SupportedAsWritten | planbuilder/SelectPlanBuilder.cpp:204-219 | what a SELECT asks of its predicate as it is written is what the planner asks of the rewritten one |
| Planner.ExecuteSelect | planbuilder/SelectPlanBuilder.cpp:204-243 | rewriting, planning and running deliver exactly the rows that satisfy the original predicate, each once, ascending or descending by the key |
| Planner.DirectionOfUnion | execution/UnionAllPlan.cpp:16-23 | children that run in reverse, in reverse order, deliver the reverse of the whole |
| RowCodec.ReadBack | execution/DBDataTypeHandler.cpp:330-355 | reading what was written gives the value back, whatever follows it |
| RowCodec.ReadFits | execution/DBDataTypeHandler.cpp:40-43 | whatever the bytes are, what is read is a value of the type or the marker, of a boolean exactly for the bytes 0 and 1 |
| RowCodec.ExactLimits | execution/DBDataTypeHandler.cpp:32-38 | the limits of an integer type are those of two's complement in its width |
| RowCodec.EncodedByte | execution/DBDataTypeHandler.cpp:44-48 | byte i of an integer, negative ones included, is its digit at 256 to the power of i |
| RowCodec.EncodedText | execution/DBDataTypeHandler.cpp:340-355 | a string is its length, lower byte first, and its text, and the marker is the length 65535 |
| RowCodec.SkipExactly | execution/DBDataTypeHandler.cpp:323-329 | the size found in the bytes is the size written if and only if the value is not the marker and not a string of 65533 bytes |
| RowCodec.RowRoundTrip | execution/DataRow.cpp:6-18 | decoding an encoded row gives the row back |
| RowCodec.ColumnOfDecodedRow | execution/DataRow.cpp:19-34 | for all bytes, reading one column by skipping agrees with decoding the row |
| RowCodec.SkippingExactly | execution/DataRow.cpp:19-34 | skipping reaches every column if and only if no column but the last is the marker or a string of 65533 bytes |
| RowCodec.ComparatorIsLexicographic | execution/DataRow.cpp:36-54 | comparing encoded rows is comparing their values in order |
| RowCodec.StoredKeyAgainstBound | execution/KeySearchRange.cpp:121-132 | so is comparing a stored key with the encoded start or end of a range, markers and all |
| RowCodec.KeyComparatorIsTotalOrder | execution/LevelDBHandler.h:31-36 | on encoded keys the comparison is antisymmetric, transitive, and zero only for equal keys |
| RowCodec.ComputeSize | execution/DataRow.cpp:66-76 | the size is the number of bytes that the row is written with |
| RowCodec.Copy | execution/DataRow.cpp:78-88 | the encoded row is at its place in the buffer and no other byte has changed |
| RowCodec.GetResult | execution/DataRow.cpp:19-34 | the loop reads the column that skipping finds |
| RowCodec.GetResults | execution/DataRow.cpp:6-18 | the loop decodes the row |
| RowCodec.CompareEncoded | execution/DataRow.cpp:36-54 | the loop compares the rows column by column |
| GroupBy.RunsPartition | execution/GroupByPlan.cpp:70-85 | the runs cut the rows without gap or overlap into stretches of one key, neighbours with different keys |
| GroupBy.RunsAreUnique | execution/GroupByPlan.cpp:70-85 | there is no other such way to cut them |
| GroupBy.OneRunPerKeyExactly | execution/GroupByPlan.cpp:56-115 | each key has one run if and only if equal keys stand together |
| GroupBy.MinMaxMeaning | execution/GroupByPlan.cpp:98-106 | the gathered minimum and maximum are values of the run that bound all its values |
| GroupBy.OutputMeaning | execution/GroupByPlan.h:56-75 | in an output row FIRST is the value of the first row, COUNT the number of rows, MIN and MAX are values of the run that bound it, SUM is the exact sum of integers, as far as 64 bits hold it, and AVG their average |
| GroupBy.AverageMeaning | execution/GroupByPlan.h:69-72 | for integers whose sum 64 bits hold, the average times their number is that sum, and it lies between the least and the greatest of them |
| GroupBy.SameKeyExactly | execution/GroupByPlan.cpp:75-85 | rows have one group key if and only if they agree on every group column |
| GroupBy.OutputPerRun | execution/GroupByPlan.cpp:56-115 | the output rows are the aggregates over the runs, one for one |
| GroupBy.CountsAddUp | execution/GroupByPlan.cpp:86-92 | the counts of all output rows add up to the number of input rows |
| GroupBy.GroupByPlan.Begin | execution/GroupByPlan.cpp:34-54 | the rows to come are those of all runs |
| GroupBy.GroupByPlan.Next | execution/GroupByPlan.cpp:56-115 | the projections give the next output row, each the aggregate of its name over one whole run, averages times the count the exact sum; it ends in an error if and only if `add` refuses a running sum of that run |
| GroupBy.SumIsExact | execution/DBDataTypeHandler.cpp:103-107 | a sum over several values is the exact one if and only if 64 bits hold it |
| GroupBy.AcceptedSumsAreExact | execution/DBDataTypeHandler.cpp:16-21 | in a type of less than 64 bits, running sums that are all accepted are exact and in its range |
| GroupBy.SumAcceptedExactly | execution/DBDataTypeHandler.cpp:16-21 | of the sums that 64 bits hold, those within the limits of the type are accepted and no others |
| GroupBy.RefusedExactly | execution/DBDataTypeHandler.cpp:103-107 | over columns narrower than 64 bits a run ends in an error if and only if one of its running sums, as exact integers, is outside the limits of its type |
| GroupBy.RunsFitExactly | execution/GroupByPlan.cpp:86-110 | the sums of all rows are accepted if and only if they are in every run |
| GroupBy.SilentOverflow | execution/DBDataTypeHandler.cpp:103-107 | two rows with the largest 64-bit value have the sum -2 and no error |
| GroupBy.WideRunsFit | execution/DBDataTypeHandler.cpp:103-107 | no sum over 64-bit columns is refused, in whatever order the rows come |
| GroupBy.GroupByPlan.UpdateKey | execution/GroupByPlan.cpp:75-85 | says whether the group key is the last one, and the last key is the current one then |
| GroupKeys.RunIsAllOfKey | execution/GroupByPlan.cpp:70-85 | when equal keys stand together a run is all the rows with its key |
| GroupKeys.OutputPerKey | execution/GroupByPlan.cpp:56-115 | then the output is one row for each distinct key, with the aggregates over all rows that have it |
| GroupKeys.ResultSame | execution/GroupByPlan.cpp:86-110 | an aggregate depends on which values a group has and how often, not on their order |
| GroupKeys.OrderIrrelevantExactly | execution/GroupByPlan.cpp:61-68 | the group rows are the same for every order of the rows if and only if every column taken from a first row is a group column |
| ExecBuffer.ExecutionBuffer.DoAlloc | execution/ExecutionBuffer.cpp:26-52 | a fresh span inside one block, behind the last one or at the start of the next block, apart from all others and within the budget; refused only for size, budget or pool |
| ExecBuffer.ExecutionBuffer.CopyRow | execution/ExecutionBuffer.cpp:13-24 | the span holds the encoded row and all earlier spans keep their bytes |
| Sort.PrecedesIsWeakOrder | execution/SortPlan.cpp:33-57 | the order by mixed ascending and descending items is a strict weak order |
| Sort.PrecedesExactly | execution/SortPlan.cpp:33-57 | a row precedes another if and only if there is an item at which its value is below the other's, above it when descending, and before which they agree |
| Sort.EncodedOrder | execution/SortPlan.cpp:33-57 | on buffered rows the comparator of the bytes is that order |
| Sort.SortPlan.Begin | execution/SortPlan.cpp:13-61 | the buffer holds a permutation of the child's projected rows, sorted; it fails only when the rows do not fit or the pool is dry |
| Sort.SortPlan.BufferRow | execution/SortPlan.cpp:21-31 | one more row is in the buffer and the rows before are unchanged |
| Sort.SortPlan.GetResult | execution/SortPlan.cpp:76-80 | reads the column of the sorted row delivered last |
| Sort.SortPlan.EnsureSortOrder | execution/SortPlan.cpp:98-117 | grants the column sorted by at the position; an open direction takes on the one asked for |
| SelectPlan.EnsureKeeps | execution/ExecutionPlan.h:23-37 | no request takes an earlier grant back |
| SelectPlan.EnsureAdds | execution/ExecutionPlan.h:95-96 | a granted request is one more promise of the plan |
| SelectPlan.PromisesAreKept | planbuilder/SelectPlanBuilder.cpp:17-36 | whatever a coherent plan of scans, unions, filters, projections, sorts and groupings delivers in step is sorted by what it has promised |
| SelectPlan.UnionRefusesNoSum | execution/UnionAllPlan.h:64-75 | over a union no sum or average of integers is refused, since they are of 64 bits there |
| ColumnTypes.TypesAreRight | execution/GroupByPlan.h:37-54 | whatever a plan of scans, unions, filters, projections, sorts and groupings delivers has the types that the plan gives to its columns: widened under a union, 64 bits for counts, doubles for averages, and integers within their limits |
| SelectPlan.PromisedMeansGrouped | execution/UnionAllPlan.h:89-103 | rows that agree on promised columns stand together in every output of a coherent plan, when each of its unions is in step or has children that share key prefixes only as blocks |
| SelectPlan.UnionGroupedExactly | execution/UnionAllPlan.cpp:16-37 | a union out of step keeps rows with equal promised columns together if and only if children that share such a key have no other |
| PlanRequests.SplitGroup | execution/UnionAllPlan.h:101 | two scans in descending order, out of step, whose rows with the key 1 are not side by side |
| PlanRequests.ScanGrantsExactly | execution/LevelDBScanPlan.cpp:117-137 | a scan grants a list if and only if it is a prefix of the key in one direction that suits the scan |
| PlanRequests.UnionStaysInStepExactly | execution/UnionAllPlan.h:89-103 | a request leaves a union in step with its children unless it is an open one for the key column at its position and the union runs in reverse |
| PlanRequests.GrantedIsInStep | execution/UnionAllPlan.h:96-102 | a granted request for a direction puts the union that it reaches in step, whatever came before |
| PlanRequests.ForgottenDirection | execution/UnionAllPlan.h:101 | a union that granted descending order and then an open request delivers ascending rows |
| SelectPlan.OneRowPerKey | planbuilder/SelectPlanBuilder.cpp:109-135 | a grouping on a promise of its columns gives one row for each distinct key, with the aggregates over all rows that have it, also after later requests |
| SelectBuilder.GroupByIsSound | planbuilder/SelectPlanBuilder.cpp:109-135 | GROUP BY, with or without a sort below it, stands on such a promise and groups the rows of the plan below, unless that runs a union in reverse whose children share key prefixes otherwise |
| SelectBuilder.GroupSortLeftOut | planbuilder/SelectPlanBuilder.cpp:113-126 | the group rows are the same, each as often, with the sort below the grouping and without it |
| SelectBuilder.SameRows | planbuilder/SelectPlanBuilder.cpp:34-36 | a plan delivers its rows, each as often as it has it, whatever was requested of it, groupings included |
| SelectBuilder.OrderByDelivers | planbuilder/SelectPlanBuilder.cpp:17-52 | with or without the sort the output is sorted by the ORDER BY list and has the rows of the plan before |
| SelectBuilder.SortLeftOut | execution/ExecutionPlan.h:23-37 | the same rows come out with the sort of an ORDER BY and without it, sorted both times |
| SelectBuilder.SortOverScanExactly | planbuilder/SelectPlanBuilder.cpp:17-36 | over the scan of a table the sort of an ORDER BY or a GROUP BY is left out if and only if its items are the columns of the key from the front, in one direction that suits the scan |
| SelectBuilder.GroupedDelivers | planbuilder/SelectPlanBuilder.cpp:237-239 | whatever columns are taken from first rows, the output is HAVING over the groups of the rows below in some order that keeps equal keys together, with all sums accepted |
| SelectBuilder.AnswerMeaning | planbuilder/SelectPlanBuilder.cpp:237-239 | a row is in the answer to a SELECT with GROUP BY if and only if it is the group row of some row's key and all predicates of one conjunction of HAVING hold on it |
| SelectBuilder.GroupRowMeaning | execution/GroupByPlan.cpp:56-115 | that group row has the aggregates over exactly the rows that agree with that row on the group columns |
| SelectBuilder.AnswerWithoutGroups | planbuilder/SelectPlanBuilder.cpp:237-239 | without GROUP BY the answer has the rows on which HAVING holds, as often as they are there |
| SelectBuilder.SelectPlanBuilder.BuildPlanForGroupBy | planbuilder/SelectPlanBuilder.cpp:109-135 | asks column by column up to the first refusal and puts a sort below the grouping exactly then |
| SelectBuilder.SelectPlanBuilder.BuildPlanForOrderBy | planbuilder/SelectPlanBuilder.cpp:17-52 | asks item by item up to the first refusal and adds the sort exactly then |
| SelectBuilder.SelectPlanBuilder.Build | planbuilder/SelectPlanBuilder.cpp:237-239 | after GROUP BY, HAVING and ORDER BY the plan delivers one row for each group of the rows below, with its aggregates, averages among them, of these the ones that HAVING lets pass, sorted by the ORDER BY list; columns outside the group key are those of some order of the rows |
| Query.SelectionIsTable | execution/FilterPlan.cpp:68-86 | the rows that a selection keeps are in key order again |
| Query.SelectedInOrder | execution/LevelDBScanPlan.cpp:65-112 | what is delivered for a WHERE has each row that satisfies it as often as the table and no other, its keys ascending, or descending as asked |
| Query.WholeInPrefix | execution/KeySearchRange.cpp:71-119 | two disjoint ranges with rows that share a key prefix have no rows without it |
| Query.PlannerUnionIsCoherent | planbuilder/LevelDBPlanBuilder.cpp:96-121 | the union that the planner builds is coherent before any request, and its rows are those that satisfy a disjunct |
| Query.PlannerUnionIsWhole | planbuilder/LevelDBPlanBuilder.cpp:96-121 | without hidden overlaps of ranges its children share key prefixes only as blocks |
| Query.BuiltFails | execution/GroupByPlan.cpp:86-110 | a SELECT over scans ends in an error only when, in some order of its rows with equal keys together, a running sum is refused |
| Query.BlankBuilt | planbuilder/SelectPlanBuilder.cpp:237-239 | which sorts are left out does not depend on the rows |
| Query.RunOverLeaf | execution/ExecutionPlan.h:50-60 | fetching the rows of the scans first and running the rest of the plan over them is running the plan |
| Query.Execute | planbuilder/SelectPlanBuilder.cpp:204-243 | a SELECT with WHERE, GROUP BY, HAVING and ORDER BY delivers exactly the groups, with their aggregates, of the rows of the table that satisfy the original predicate, sorted by the list, whatever plan is chosen, or it ends in an error for a sum that is refused |
| PgWriter.PgDataWriter.AddInt64 | server/PgDataWriter.cpp:60-64 | the eight bytes of the number, highest first, are appended, or the buffer is full and what was written before is as it was |
| PgWriter.TwoHalves | server/PgDataWriter.cpp:60-64 | the upper four bytes and then the lower four are the eight bytes of a number |
| PgWriter.PgDataWriter.AddString | server/PgDataWriter.cpp:110-118 | the same for a length and a text |
| PgWriter.PgDataWriter.AddStringZeroEnd | server/PgDataWriter.cpp:77-89 | the same for a text with a zero behind it |
| PgWriter.PgDataWriter.AddBytesString | server/PgDataWriter.cpp:93-108 | the same for a byte string in hexadecimal digits |
| PgWriter.PgDataWriter.AddValueAsString | server/PgDataWriter.h:54-70 | the same for a printed number, which asks for one byte of room more than it takes |
| PgWriter.PgDataWriter.Begin | server/PgDataWriter.cpp:21-24 | clears the full flag and appends the type and the place for the length |
| PgWriter.PgDataWriter.End | server/PgDataWriter.cpp:26-36 | writes the length back and prepares everything written, or changes nothing when the buffer is full |
| PgWriter.PgDataWriter.WriteMessage | server/PgDataWriter.cpp:21-36 | the prepared bytes are those before and the whole message if and only if there is room and nothing unprepared in front of it; without room they are as before |
| PgWriter.PgDataWriter.PerformAll | server/PgDataWriter.cpp:21-36 | after any sequence of calls up to the first overflow the prepared bytes are the complete messages so far, each with its length, and the overflow has not changed them |
| PgWriter.BigEndianRoundTrip | server/PgDataWriter.cpp:48-58 | a number in range can be read back from its bytes |
| PgWriter.BigEndianByte | server/PgDataWriter.cpp:48-58 | byte i from the right is the digit at 256 to the power of i |
| PgWriter.DecimalRoundTrip | server/PgDataWriter.h:54-70 | the decimal text of an integer gives it back |
| PgWriter.DecimalDigit | server/PgDataWriter.h:54-70 | character i from the right is the digit at 10 to the power of i, and no number but 0 begins with 0 |
| PgWriter.HexDigitsMeaning | server/PgDataWriter.cpp:90-107 | each byte is two of the characters 0 to 9 and A to F, the upper half first |
| PgWriter.FrontMessage | server/PgDataWriter.cpp:26-36 | a message is its type, a length of four bytes that counts itself and the body, and the body |
| PgWriter.StreamRoundTrip | server/PgDataWriter.cpp:26-36 | a client that goes by the lengths reads back exactly the messages |
| Protocol.BuildException | server/PostgresProtocol.cpp:133-156 | the buffer holds the error message, its text cut short if it has to be, and the ready message if and only if the first has not overflowed and been forgotten over the second; then it holds no error and ready message whatever the text |
| Protocol.ClientReadsError | server/PostgresProtocol.cpp:133-149 | from both messages a client reads an `E` with the fields S, C, M and P, as they are with the text and the position, and a `Z` with the body `I` |
| Protocol.LongTextIsForgotten | server/PostgresProtocol.cpp:147-154 | so is every text that is no more than 20 bytes shorter than the buffer forgotten |
| Protocol.ShortTextFits | server/PostgresProtocol.cpp:150-154 | with a text cut to a hundred bytes less than the buffer both messages fit, so the retry ends |
| Session.RowRoundTrip | server/PostgresProtocol.cpp:190-222 | a client reads from a data message the texts of the row's columns, and NULL where it is NULL |
| Session.DataMessageLayout | server/PostgresProtocol.cpp:190-211 | a data message is a `D` with the number of columns in two bytes and for each column -1, where it is NULL, or the length in four bytes and the text |
| Session.FieldTexts | server/PostgresProtocol.cpp:50-107 | the client is to see `true` and `false`, decimal digits, the string itself, and `\x` with hexadecimal digits |
| Session.HexRoundTrip | server/PgDataWriter.cpp:102-107 | the hexadecimal digits of a byte string give it back |
| Session.SessionInfo.HandleExecutionBegin | server/SessionInfo.cpp:156-163 | starts the plan and sends the first rows, or the closing messages when there are none |
| Session.SessionInfo.HandleExecutionResult | server/SessionInfo.cpp:184-205 | sends whole rows from the current one on, and stops before the end only at a row without room behind the bytes sent; it gets further if and only if the current row fits an empty buffer, and otherwise changes nothing |
| Session.SessionInfo.HandleExecutionDone | server/SessionInfo.cpp:164-182 | a client reads from what is sent that the statement is parsed and bound, as far as it is, one `C` with the information and then, for a simple query, one `Z`, and nothing else; the flags are cleared |
| Session.SessionInfo.Execute | server/SessionInfo.cpp:156-205 | however often the buffer is flushed, a client reads from the bytes sent one `D` for each row in order, with the texts of its columns, then `1` and `2` exactly when the statement is parsed and bound, exactly one `C`, for a simple query a last `Z`, and nothing behind it; the statement ends |
| Session.ClientReadsRows | server/SessionInfo.cpp:184-205 | the client reads from the bytes of rows and any closing messages just these messages |
| Session.ClientReadsStatement | server/PostgresProtocol.cpp:224-241 | the bytes of rows and of the closing messages are read as such a statement, with the kinds and bodies of the messages spelt out |
| ReadFile.PlainLine | execution/ReadFilePlan.cpp:68-106 | without quotes the fields are the parts between separators, missing ones empty and extra ones ignored |
| ReadFile.LineRoundTrip | execution/ReadFilePlan.cpp:68-106 | for every row of fields there is a line that is read back as those fields |
| ReadFile.QuotedExactly | execution/ReadFilePlan.cpp:81-96 | a field put between quotes, with its own quotes doubled, is read back if and only if some character of it is no quote and no quote stands between two such characters |
| ReadFile.QuoteInsideIsLost | execution/ReadFilePlan.cpp:81-96 | `"a""b"` is read as `ab` |
| ReadFile.ReadFilePlan.Next | execution/ReadFilePlan.cpp:57-110 | each column shows its field of the line as a tokenizer with its own buffer finds it, and has been set exactly once |
| ReadFile.ReadFilePlan.TakeTokens | execution/ReadFilePlan.cpp:68-100 | the tokens taken are those of that tokenizer and stand untouched in front of the one being built |
| ReadFile.ReadFilePlan.KeepChar | execution/ReadFilePlan.cpp:99 | a character written in place changes neither the tokens taken nor what is still to be read |

## Left out

* Replacing children of parse nodes in place (`setChild`) and sharing of nodes between disjuncts: predicate
  trees are values, so the rewriting is on copies.
* Flattening of nested value lists (common/QueryRewritter.cpp:56-80): lists are flat and hold constants; a
  list element that is not a constant is a parse error in the source.
* Parse errors and execution errors: unknown columns, constants of the wrong type, unsupported predicates
  and cancellation end a statement; the model starts from statements without them. The exhausted sort buffer
  and a sum outside the range of its type are modelled as results of `SortPlan.Begin` and `GroupByPlan.Next`.
* Names: columns are their result indices and constants are already converted by the column's type. A
  function in ORDER BY is looked up by the function's name in the source.
* Floating-point, date and LIKE details: floating-point columns are absent, dates are 64-bit integers whose
  text is given, LIKE is the substring search of the source.
* Averages are exact quotients, where the source divides doubles. Sums and averages over the averages of a subquery
  and averages of strings, which are an error, are left out (`GroupBy.Summable`), and the buffer of `Sort` holds no
  averages.
* Projection of only the value columns that a statement names: the whole row is at hand.
* SortPlan keeps the columns of its child in `SelectPlan`, while the class in `Sort` projects them as the source does.
* Requests that change plan objects in place are proved for scans, filters, unions and sorts on the heap classes;
  the tree of `SelectPlan` is a value that the builder's field is reassigned, so aliasing between plans is not in it.
* LevelDB itself, snapshots, batches, deletes, inserts, cost estimates and explain texts.
* LimitPlan, which counts rows, ConstPlan, which delivers constants, ShowTables and the like: each is one loop
  over given rows.
* Predicates that are a constant: a false one makes an empty plan, a true one none at all
  (planbuilder/SelectPlanBuilder.cpp:210-217).
* The grouping that a projection adds for an aggregate without GROUP BY (execution/ProjectionPlan.h:73-82).
* Virtual dispatch between plans: a union holds scans and filters over scans (`Plans.ScanNode`), and grouping
  and sorting take their rows from `Source.RowSource`.
* The choice of `std::sort` among equal elements: `StdSort.Sort` promises a sorted permutation only.
* Big-endian machines: the codec and the writer assume that integers are stored with the low byte first.
* The socket, asynchronous completion and thread switching: a write is complete when its handler runs.
* The `catch` of `buildData` (server/PostgresProtocol.cpp:213-218), and column descriptions.
- Planner.ExecuteSelect: asks that constants of key columns fit and texts tell the comparisons and IN lists of the predicate apart, or that each used bound is the tightest with its text or the range holds no key; that NOT IN lists hold one value and that no row of the table satisfies two disjuncts where a union can be built, because the code is wrong otherwise, as the lemmas above show.
- Query.Execute: asks the same of the predicate, with no row of the table in two disjuncts of a union; the operators above the scans run on values, where no sort buffer is full, and the scans are given at once the direction that the requests one by one leave them.
- SelectBuilder.SameRows: asks that every column taken from the first row of a group is a group column, which is exactly when the rows do not depend on their order.
