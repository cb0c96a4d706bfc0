# Verified model of the column store and of the linter's bracket and nesting logic

This project models two parts of the repository and proves what they are for.

**The column store.** A table is a list of chunks of segments. A segment holds its values, or ids into a
sorted dictionary, or a list of positions in another table. Tables grow by appended rows and emplaced chunks
and full chunks are compressed; table scans filter rows by one of six comparisons. Proved from the bottom up:
the dictionary encoding is lossless, comparing value ids decides what comparing values decides, the segment
scanners are pointwise filters by the order of numbers and strings, appended rows fill one chunk after the
other, every run of a table keeps all rows and all positions, and any pipeline of
scans over such a table returns exactly the rows ever added that satisfy all criteria, also when chunks are
compressed between any two reads of any of its scans. Its results keep their meaning in every later run.

**The linter.** `cpplint.py` matches brackets forwards and backwards with two separately written stack
machines, keeps a stack of nested blocks across `#if`/`#else`/`#endif`, and blanks multi-line comments.
Proved: from hard brackets the two matchers invert each other whatever lies between, and from angle brackets
each finds the first place where those outside of hard brackets balance; in a file, lines in later branches of
conditionals never act on the nesting stack that is kept, even though blocks are changed in place, and reach it
exactly through what other lines read ahead; comment removal computes a one-pass automaton, overwrites exactly
the comments and is idempotent.

## Files

| file | contents |
|---|---|
| `Sequences.dfy`, `Wrappers.dfy`, `TextClasses.dfy` | filter, map and flatten; option and result; character classes |
| `Values.dfy` | column values and their total order |
| `Dictionaries.dfy` | sort, unique, bounds, attribute vectors, dictionary segments |
| `Comparison.dfy` | the six comparison scanners on values and on ids |
| `Storage.dfy` | segments, chunks and tables as read; selection by a predicate |
| `Scanner.dfy` | index fetchers and segment scans |
| `ScanTheory.dfy` | scans and pipelines of scans as row filters |
| `TableRuns.dfy`, `Layout.dfy` | the table as a state machine; where its rows end up |
| `TableObjects.dfy` | value segments, chunks and tables as mutable, shared objects |
| `TableScan.dfy` | the scan operator |
| `Interleaving.dfy` | pipelines of scans while chunks are compressed |
| `EndToEnd.dfy` | from added rows to pipeline results, and what later runs leave of them |
| `Brackets.dfy`, `BracketTheory.dfy` | the bracket matchers; their plain form and round trip |
| `Angles.dfy`, `AngleTheory.dfy` | matching of angle brackets among marks; what the matchers find from them |
| `Preprocessor.dfy`, `NestingObjects.dfy` | the nesting state across conditionals; its mutable objects |
| `LookAhead.dfy` | what class declarations read of the lines after them |
| `Comments.dfy` | removal of multi-line comments |

## Conventions

- Values are integers, reals or strings in one total order: within a kind as C++ compares them, across kinds
  by kind, as `boost::variant` does. There is no NaN.
- Integers are unbounded except where the width matters: value ids are narrowed to 8, 16 or 32 bits, offsets
  to 32 bits, and the fetchers count modulo 2^64. Chunks are assumed to fit `ChunkOffset`.
- Debug assertions of the source are preconditions, except the offset check of `DictionarySegment::get`, which
  rejects valid rows (see below); cells are read without it. Exceptions are results: an immutable segment refuses
  an append, a dictionary without a wide enough id type and a scan over an unsupported segment fail.
- `std::sort`, `std::unique`, `std::lower_bound` and `std::upper_bound` are loops with the contracts of sections
  28.7.1.1, 28.6.9, 28.7.3.1 and 28.7.3.2 of ISO/IEC 14882:2017.
- Objects carry their abstract value; each method states the abstract value it leaves. The abstract values are
  the states of the state machines in `TableRuns.dfy` and `Preprocessor.dfy`, and the theorems about all runs
  are proved there.
- The table a scan reads is a value, as is fitting for a `shared_ptr<const Table>`; the table it builds is an
  object.

## Where code and documentation differ

- `DictionarySegment::get` checks the offset against the number of distinct values, not of rows
  (`DebugCheckTooStrong` says exactly when the check is harmless).
- A table is documented to bound its chunks by the chunk size. With chunk size 0 it does not
  (`BoundNeedsPositiveChunkSize`); no row is lost even then (`RunKeepsAllRows` has no condition on the size).
- `emplace_chunk` is documented to replace the first chunk if that is empty; the code does so only if the
  whole table has no rows. With an empty first chunk it meets the documentation exactly when all other chunks
  are empty too (`EmplaceReplacesEmptyFirst`), and creating a chunk and appending a row to a new table leads to
  one where it does not (`EmptyFirstChunkStays`). The model follows the code.
- A row whose append fails midway stays in the segments before the one that refused it. The chunk can still be
  read exactly when the first segment refuses (`RefusedAppend`); a table can be brought into such a state
  (`RefusedAppendReachable`).
- Lines in later branches are documented not to affect the nesting stack. They do, through a class declared
  elsewhere, whose end is searched in all lines after it. The class with two heads that the documentation of
  `UpdatePreprocessor` shows is such a case (`LaterBranchReachesStack`, `ExampleLaterBranch`). Exchanging later
  branches changes nothing exactly when the lines that count act alike in both files
  (`LaterBranchesInterchangeable`); as far as the ends of classes are concerned, exactly when classes declared in
  lines that count end alike (`LookAheadDecides`), for which equal brace counts suffice
  (`SameBracesSameResult`).

- The forward matcher is commented to ignore operator functions. It ignores a `>` only one character after the
  word `operator`, so the one of `operator>` counts, while the backward matcher skips it (`OperatorGreater`).
- `CloseExpression` is documented for a position at `<`. From one that is the second of `<<` or follows
  `operator` it goes on to the next bracket in the line (`IgnoredStart`).

## Model

| member | source | states |
|---|---|---|
| `Dictionaries.Sort` | src/lib/storage/dictionary_segment.hpp:114 | the result is sorted and a permutation of the input |
| `Dictionaries.Unique` | src/lib/storage/dictionary_segment.hpp:115-116 | the result keeps the first element of every group of equal neighbours and nothing else |
| `Dictionaries.WithoutRepeatsOfSorted` | src/lib/storage/dictionary_segment.hpp:114-116 | on sorted input this leaves every value exactly once, strictly increasing |
| `Dictionaries.DistinctIsDictionary` | src/lib/storage/dictionary_segment.hpp:111-119 | the dictionary is strictly increasing, holds exactly the values of the segment and is no longer than it |
| `Dictionaries.StrictlyIncreasingUnique` | src/lib/storage/dictionary_segment.hpp:111-119 | a set of values has only one dictionary |
| `Dictionaries.LowerIndexSplits` | src/lib/storage/dictionary_segment.hpp:82-84 | an entry lies before the lower bound exactly when it is smaller than the value |
| `Dictionaries.UpperIndexSplits` | src/lib/storage/dictionary_segment.hpp:91-93 | an entry lies before the upper bound exactly when it is not greater than the value |
| `Dictionaries.LowerBound` | src/lib/storage/dictionary_segment.hpp:29-34 | binary search finds the first entry not smaller than the value, or the sentinel when there is none |
| `Dictionaries.UpperBound` | src/lib/storage/dictionary_segment.hpp:91-93 | binary search finds the first entry greater than the value, or the sentinel when there is none |
| `Dictionaries.LowerBoundFinds` | src/lib/storage/dictionary_segment.hpp:82-84 | looking a stored value up returns the index it is stored at |
| `Dictionaries.WidthFor` | src/lib/storage/dictionary_segment.hpp:123-133 | the chosen width is the narrowest that holds the count; none exists exactly above the 32-bit maximum |
| `Dictionaries.WidthIsLossless` | src/lib/storage/dictionary_segment.hpp:123-146 | narrowing changes no id of an accepted dictionary, and no stored id is the width's maximum or the sentinel |
| `Dictionaries.WidthHoldsBytes` | src/lib/storage/dictionary_segment.hpp:123-133 | the maximum of a width is the greatest number its bytes hold |
| `Dictionaries.FittedAttributeVector.Set` | src/lib/storage/fitted_attribute_vector.hpp:33-36 | one position is written through the narrowing cast; it reads back unchanged exactly when the id fits |
| `Dictionaries.LookUpIds` | src/lib/storage/dictionary_segment.hpp:136-146 | every row gets the narrowed index of its value |
| `Dictionaries.EncodeSegment` | src/lib/storage/dictionary_segment.hpp:43-51 | sorting, deduplicating and binary searching compute the reference encoding; it fails exactly when no width holds the ids |
| `Dictionaries.EncodeRoundTrip` | src/lib/storage/dictionary_segment.hpp:60-63 | the encoding has as many rows as the segment and decoding returns the original value at every row |
| `Dictionaries.DebugCheckTooStrong` | src/lib/storage/dictionary_segment.hpp:61 | the debug check accepts all row offsets exactly when no value repeats; otherwise it rejects a row that decodes correctly |
| `Comparison.GetValueId` | src/lib/operators/segment_scanner.hpp:309-412 | each scanner looks up the bound, or the sentinel, that its id comparison needs |
| `Comparison.IdComparisonAgrees` | src/lib/operators/segment_scanner.hpp:300-417 | for every operator, dictionary and search value, comparing a stored id with the bound decides what comparing the decoded value decides |
| `Values.LexLessMeans` | src/lib/operators/segment_scanner.hpp:300-417 | a string is smaller when it is a proper prefix or has the smaller character at the first difference |
| `Values.LessMeans` | src/lib/operators/segment_scanner.hpp:300-417 | the order is that of the numbers, that of strings, and integers before floating-point numbers before strings |
| `Comparison.CompareMeans` | src/lib/operators/segment_scanner.hpp:300-417 | each operator decides by whether the value is smaller than, equal to or greater than the search value, for numbers and strings |
| `Comparison.Complement` | src/lib/operators/segment_scanner.hpp:303-401 | each operator has a complementary one that selects exactly the other values |
| `Scanner.CounterWidths` | src/lib/operators/segment_scanner.hpp:29-30 | counters have eight bytes, and the default chunk size is one below the greatest number of four bytes |
| `Scanner.IndexFetcher.constructor` | src/lib/operators/segment_scanner.hpp:29-30 | the next counter value is the start, also for start 0 where the stored counter has wrapped around |
| `Scanner.IndexFetcher.Next` | src/lib/operators/segment_scanner.hpp:38-68 | hands out the index of the upcoming counter value and advances by one modulo 2^64 |
| `Scanner.VisitAll` | src/lib/operators/segment_scanner.hpp:266-272 | the has_next/next loop visits exactly the interval, each index once, in order, and stops, also when it is empty |
| `Scanner.ScanValueSegment` | src/lib/operators/segment_scanner.hpp:282-297 | returns the visited positions whose value matches, in visiting order |
| `Scanner.IdsDecide` | src/lib/operators/segment_scanner.hpp:266-272 | over any visited interval, comparing ids with the looked-up bound selects what comparing decoded values selects |
| `Scanner.ScanDictionarySegment` | src/lib/operators/segment_scanner.hpp:255-275 | returns the visited positions whose decoded value matches, although only ids are compared |
| `Scanner.ScanRun` | src/lib/operators/segment_scanner.hpp:238-248 | a run of positions of one chunk is filtered by the cells they designate; it fails exactly on a reference segment |
| `Scanner.RunsCover` | src/lib/operators/segment_scanner.hpp:163-193 | the runs lie within one chunk each and together make up the list, in order |
| `Scanner.ScanReferenceSegment` | src/lib/operators/segment_scanner.hpp:153-196 | cutting any list (unsorted, repeated, alternating) at the changes of chunk id gives the pointwise filter; it fails exactly when some position leads to a reference segment |
| `Scanner.ScanSegment` | src/lib/operators/segment_scanner.hpp:118-147 | every kind of segment is filtered by its cells; a reference segment yields positions of the table it refers to |
| `ScanTheory.SelectIsSelectAll` | src/lib/operators/table_scan_impl.hpp:75-77 | filtering by one column's cells is filtering by whole rows |
| `ScanTheory.RowsByViews` | src/lib/storage/reference_segment.cpp:23-33 | the rows of a table are the rows found at the positions its chunks show |
| `ScanTheory.ScanOutputScannable` | src/lib/operators/table_scan_impl.hpp:79-111 | the output of a scan has the form scans can read again |
| `ScanTheory.ScanFiltersRows` | src/lib/operators/table_scan_impl.hpp:60-98 | a scan keeps the schema and returns exactly the matching rows, whole, in input order |
| `ScanTheory.IntScan` | src/lib/operators/segment_scanner.hpp:300-417 | a scan of an integer column returns exactly the rows whose number is smaller, equal or greater, as the operator asks |
| `ScanTheory.LessThanScan` | src/lib/operators/segment_scanner.hpp:303 | a less-than scan returns exactly the rows whose number is smaller than the search value |
| `ScanTheory.PipelineFiltersRows` | src/lib/operators/table_scan_impl.hpp:60-98 | any pipeline of scans returns exactly the input rows that satisfy all criteria, in input order, duplicates kept |
| `ScanTheory.PipelineSelectsPositions` | src/lib/operators/table_scan_impl.hpp:60-111 | the output position lists are those of the input chunks filtered by all criteria at once, empty ones dropped |
| `ScanTheory.PipelinesCommute` | src/lib/operators/table_scan_impl.hpp:60-98 | pipelines with the same criteria in any order return the same rows, and the same table unless empty |
| `ScanTheory.PipelineRefersToBase` | src/lib/operators/table_scan_impl.hpp:79-111 | over data chunks every reference of a non-empty result points to the base table, segment c to column c, with one list per chunk and no chunk empty; an empty result is one empty chunk |
| `ScanTheory.ComplementPartitions` | src/lib/operators/segment_scanner.hpp:300-417 | a scan and its complementary scan split every position list, each occurrence going to exactly one |
| `TableRuns.AddColumnExtendsInit` | src/lib/storage/table.cpp:34-39 | adding columns one by one to a new table builds the table with all of them |
| `TableRuns.AppendToChunkRows` | src/lib/storage/chunk.cpp:19-27 | appending to a chunk keeps its rows and adds the new one at the end |
| `TableRuns.RefusedAppend` | src/lib/storage/chunk.cpp:19-27 | an append that a segment refuses leaves the chunk readable exactly when the first segment refuses, and then unchanged |
| `TableRuns.RefusedAppendReachable` | src/lib/storage/chunk.cpp:19-27 | emplacing a chunk with an immutable second segment in a new table and appending leads to a table that cannot be read |
| `TableRuns.CompressedChunkRows` | src/lib/storage/table.cpp:124-130 | the compressed copy has the same rows |
| `TableRuns.TotalRowsCounts` | src/lib/storage/table.cpp:61-67 | the sum of the chunk sizes is the number of rows |
| `TableRuns.InitInv` | src/lib/storage/table.cpp:23-24 | a new table satisfies the invariant and has no rows |
| `TableRuns.StepAddsRows` | src/lib/storage/table.cpp:41-135 | every operation keeps the invariant (the current chunk is listed with only empty chunks after it, or is detached and full) and adds exactly its rows at the end |
| `TableRuns.EmplaceReplacesEmptyFirst` | src/lib/storage/table.cpp:94-107 | an empty first chunk is replaced exactly when all other chunks are empty too |
| `TableRuns.EmptyFirstChunkStays` | src/lib/storage/table.cpp:94-107 | after creating a chunk and appending a row the first chunk is empty and emplacing does not replace it |
| `TableRuns.RunKeepsAllRows` | src/lib/storage/table.cpp:41-135 | in every run the chunk rows are the rows ever added, in order |
| `Layout.AppendOpensChunk` | src/lib/storage/table.cpp:41-47 | an append opens a new chunk exactly when the current one holds as many rows as the chunk size |
| `Layout.StepMovesCurrent` | src/lib/storage/table.cpp:50-107 | an opened or emplaced chunk becomes the current one; compression keeps the contents of the current one |
| `Layout.AppendEnabled` | src/lib/storage/table.cpp:41-47 | in a table filled by appends and compressions a row can be appended exactly when it has as many cells as there are columns |
| `Layout.AppendedRowsByDivision` | src/lib/storage/table.cpp:41-47 | with compressions in between, the k-th appended row is at chunk k / chunkSize, offset k % chunkSize, and there are as many chunks as the rows need |
| `TableRuns.RunKeepsPosition` | src/lib/storage/table.cpp:41-135 | a RowID that is valid once designates the same row after any later run |
| `TableRuns.RunKeepsBound` | src/lib/storage/table.cpp:92 | with a positive chunk size no chunk ever exceeds it |
| `TableRuns.BoundNeedsPositiveChunkSize` | src/lib/storage/table.cpp:92 | all reachable tables with columns respect the chunk size exactly when it is positive |
| `TableRuns.UnguardedCompressLosesAppend` | src/lib/storage/table.cpp:119-135 | without the fullness check the next appended row survives exactly when the compressed chunk is full or not the current one |
| `TableObjects.ValueSegment.Append` | src/lib/storage/value_segment.cpp:24-27 | the value is added at the end |
| `TableObjects.MutableChunk.AddSegment` | src/lib/storage/chunk.cpp:17 | the segment is added to the right; segments stay distinct exactly when the chunk did not hold it |
| `TableObjects.MutableChunk.Size` | src/lib/storage/chunk.cpp:33-39 | the size of the first segment, or 0 |
| `TableObjects.MutableChunk.Append` | src/lib/storage/chunk.cpp:19-27 | every segment up to the first immutable one receives its value of the row, one held several times receives several; it succeeds exactly when none is immutable |
| `TableObjects.AppendedIsAppend` | src/lib/storage/chunk.cpp:19-27 | every segment grows by just its own cell exactly when none that grows is held twice |
| `TableObjects.MutableTable.constructor` | src/lib/storage/table.cpp:23-24 | one empty chunk, listed and current |
| `TableObjects.MutableTable.RowCount` | src/lib/storage/table.cpp:61-67 | the sum of the chunk sizes |
| `TableObjects.MutableTable.AddColumnDefinition` | src/lib/storage/table.cpp:26-32 | only the schema changes |
| `TableObjects.MutableTable.AddColumn` | src/lib/storage/table.cpp:34-39 | the schema grows, and the current chunk by an empty segment |
| `TableObjects.MutableTable.CreateNewChunk` | src/lib/storage/table.cpp:50-57 | a chunk of empty value segments is listed last and becomes current |
| `TableObjects.MutableTable.Append` | src/lib/storage/table.cpp:41-47 | the row goes to the current chunk, which is replaced first when full, through the shared object or the detached one; segments from the first immutable one on stay as they are |
| `TableObjects.MutableTable.EmplaceChunk` | src/lib/storage/table.cpp:94-107 | the chunk replaces the first entry of a table without rows and is added otherwise; it becomes current |
| `TableObjects.MutableTable.CompressChunk` | src/lib/storage/table.cpp:119-135 | only the list entry is replaced; a current chunk stays behind, detached |
| `TableObjects.MutableTable.PerformAll` | src/lib/storage/table.cpp:41-135 | any sequence of operations on the objects is a run of the state machine |
| `TableObjects.Compressed` | src/lib/storage/table.cpp:124-130 | the new chunk holds the encodings of all segments |
| `TableScan.CreateChunk` | src/lib/operators/table_scan_impl.hpp:104-111 | one reference segment per column of the referenced table, sharing the list |
| `TableScan.ScanChunk` | src/lib/operators/table_scan_impl.hpp:75-77 | scanning a chunk selects from the positions its segment shows and fails exactly when one of them leads to a reference segment |
| `TableScan.Execute` | src/lib/operators/table_scan_impl.hpp:60-98 | fails exactly when the scanned column of some chunk refers to a reference segment, and otherwise builds one reference chunk per non-empty result, or a single empty one |
| `TableScan.ScanSucceeds` | src/lib/operators/table_scan_impl.hpp:60-98 | on data chunks and chunks scans produced the operator never fails and its output is the table of the scan specification |
| `TableScan.ExecutePlan` | src/lib/operators/table_scan.cpp:25-33 | operators executed one after the other return the output of the pipeline and never fail |
| `Interleaving.CompressKeepsCells` | src/lib/storage/table.cpp:132-134 | swapping in a compressed chunk changes no cell at any position |
| `Interleaving.ReadIsSelection` | src/lib/operators/segment_scanner.hpp:118-147 | scanning the segment the table holds now, whole or in one run, selects from the positions read |
| `Interleaving.WholeChunkReadIsScan` | src/lib/operators/table_scan_impl.hpp:75-77 | a whole-chunk read in any data table is what the scan operator finds in that chunk of it |
| `Interleaving.CompressionIsInvisible` | src/lib/operators/table_scan_impl.hpp:75-90 | in every state of every interleaving of segment reads of a pipeline with compressions, the cells are those of the original table, the finished scans returned the lists of the uninterrupted pipeline, and so did all reads so far |
| `Interleaving.InterleavedScanIsScan` | src/lib/operators/table_scan_impl.hpp:75-90 | every list found in the base table is what the scan operator finds in that chunk of the original table and of the table as it is now |
| `Interleaving.InterleavedRunsAreSelection` | src/lib/operators/segment_scanner.hpp:171-193 | a list read in the runs of the reference scan, with compressions between them, gives what one scan gives on the original table and on the table as it is now |
| `Interleaving.InterleavedPipelineFiltersRows` | src/lib/operators/table_scan_impl.hpp:60-98 | in every state the lists of the finished scans, read in the table as it is now, show exactly the original rows that satisfy their criteria, in order |
| `Interleaving.NeverStuck` | src/lib/operators/table_scan_impl.hpp:75-90 | whatever has been compressed, an unfinished pipeline can go on |
| `EndToEnd.PipelineOverRun` | src/lib/operators/table_scan_impl.hpp:60-98 | a pipeline over a table filled by any run returns exactly the rows ever added that satisfy all criteria, in order |
| `EndToEnd.FillAndScan` | src/lib/operators/table_scan.cpp:25-33 | building a table, filling it by any operations and scanning it by any pipeline, all on objects, returns exactly the rows ever added that satisfy all criteria, in order |
| `EndToEnd.RunKeepsList` | src/lib/storage/reference_segment.cpp:23-33 | a position list gives the same rows in the table after any later run |
| `EndToEnd.ResultsOutliveRuns` | src/lib/storage/reference_segment.cpp:23-33 | the lists of a pipeline, read in the base table after any later run, give the rows that satisfied its criteria when it ran |
| `Brackets.FindEndOfExpressionInLine` | cpplint.py:1466-1541 | the loop is the iteration of the per-character step, which the simulation lemmas relate to plain matching |
| `Brackets.CloseExpression` | cpplint.py:1544-1585 | returns the line and the position after the match found over the following lines, or the failure triple with the last line looked at |
| `Brackets.FindStartOfExpressionInLine` | cpplint.py:1588-1662 | the backward loop, with its two-character skips, is the iteration of the per-character step |
| `Brackets.ReverseCloseExpression` | cpplint.py:1665-1700 | returns the line and position of the match found over the preceding lines, or the failure triple with the last line looked at |
| `BracketTheory.PlainInverse` | cpplint.py:1544-1700 | plain matching forwards and backwards are inverse to each other |
| `BracketTheory.ForwardSimulates` | cpplint.py:1479-1538 | on hard brackets each forward step is a plain matching step, whatever is made of angle brackets and semicolons |
| `BracketTheory.BackwardSimulates` | cpplint.py:1604-1660 | on hard brackets each backward step is a plain matching step |
| `BracketTheory.SkippedIsPlain` | cpplint.py:1610-1625 | the character skipped together with an operator is never a bracket |
| `BracketTheory.ClosingIsPlain` | cpplint.py:1544-1585 | from a bracket over any lines the forward matcher succeeds where plain matching of the text succeeds, or both fail |
| `BracketTheory.OpeningIsPlain` | cpplint.py:1665-1700 | the same backwards |
| `BracketTheory.MatchersInvert` | cpplint.py:1544-1700 | an opening and a closing bracket are matched by one matcher exactly when they are matched by the other |
| `BracketTheory.CloseThenReverse` | cpplint.py:1544-1700 | whenever the forward matcher succeeds from a bracket, the backward matcher returns from the found closer to the start |
| `AngleTheory.ClosingFromAngle` | cpplint.py:1479-1585 | from a `<` the forward matcher finds the one place where the angle brackets outside of hard groups first balance, with no `;` or unmatched closer before it, and fails exactly when there is none |
| `AngleTheory.OpeningFromAngle` | cpplint.py:1604-1700 | the same backwards from a `>` |
| `AngleTheory.OperatorMeans` | cpplint.py:1492 | the pattern is found exactly when the text ends in the word `operator` and white space |
| `AngleTheory.OperatorGreater` | cpplint.py:1515-1521 | a `>` after the word `operator` never counts backwards, and counts forwards exactly when it follows at once |
| `AngleTheory.IgnoredStart` | cpplint.py:1565-1585 | from a `<` that does not count, the search goes on to the next bracket of the line that opens something, or fails |
| `AngleTheory.SimpleTemplate` | cpplint.py:1523-1529 | a `<` and the next `>` match if nothing of interest lies between |
| `AngleTheory.AnglesInvert` | cpplint.py:1544-1700 | where both matchers read every character alike, they invert each other on angle brackets |
| `AngleTheory.AnglesInvertInPlainLines` | cpplint.py:1544-1700 | they do so in all lines without `<<`, `>=` and the word `operator` |
| `AngleTheory.NoStart` | cpplint.py:1567 | from other characters, and from the first half of `<<` and `<=`, nothing is found |
| `BracketTheory.GetTextInside` | cpplint.py:4535-4551 | the expected-closer loop returns the text up to the position the other matcher finds, and fails exactly when that fails |
| `Brackets.BracketPairs` | cpplint.py:1480-1512 | the six hard brackets and their pairs |
| `TextClasses.SpaceCodes` | cpplint.py:1492 | white space is the blank and the characters from tab to carriage return |
| `TextClasses.WordCodes` | cpplint.py:1492 | word characters are the underscore, the digits and the letters |
| `Preprocessor.LaterBranchesInvisible` | cpplint.py:2403-2457 | in one file, whose lines may read all of it, the stack that will be kept after any lines is the effect of the lines outside later branches alone |
| `Preprocessor.OuterUntouched` | cpplint.py:2403-2457 | well-nested lines leave the surrounding conditionals alone and do not depend on them |
| `Preprocessor.ConditionalsNonInterference` | cpplint.py:2403-2457 | in one file, whose lines may read all of it, closed, well-nested conditionals leave the saved stacks as before and the stack as the effect of the lines outside later branches |
| `Preprocessor.LaterBranchesInterchangeable` | cpplint.py:2414-2421 | exchanging the contents of later branches changes nothing exactly when the lines outside of them, one after the other, act alike in both files |
| `Preprocessor.SameEditsSameResult` | cpplint.py:2414-2421 | it changes nothing if every line outside of later branches makes the same edits in both files |
| `LookAhead.FindLastLine` | cpplint.py:2164-2171 | finds the first line at whose end all braces since the declaration are closed, or 0 without one |
| `LookAhead.CountMeans` | cpplint.py:2168 | the count of a character is the number of its occurrences |
| `LookAhead.LastLineByBraces` | cpplint.py:2164-2171 | the end of a class depends on the brace counts of the lines from its declaration on and on nothing else |
| `LookAhead.LookAheadDecides` | cpplint.py:2414-2421 | whatever lines do with the ends of classes, exchanging later branches changes nothing exactly when classes declared in lines that count end alike |
| `LookAhead.SameBracesSameResult` | cpplint.py:2414-2421 | exchanging lines of later branches for lines with the same brace count changes nothing |
| `LookAhead.LaterBranchReachesStack` | cpplint.py:2406-2411 | for a class with two heads, a second head and a forward declaration in its place leave different stacks after the same counting lines |
| `LookAhead.ExampleLaterBranch` | cpplint.py:2406-2411 | concrete lines for which the stacks differ |
| `Preprocessor.ConditionalIsFirstBranch` | cpplint.py:2403-2457 | `#if` first `#else` later `#endif` acts as the `#if` line, the first branch and the `#endif` line |
| `Preprocessor.DirectiveMeans` | cpplint.py:2424-2446 | a line opens, switches or closes a conditional exactly when it is white space, `#`, white space, one of the words and a word boundary |
| `Preprocessor.OtherLines` | cpplint.py:2424-2446 | a line whose first character other than white space is not `#` is no directive |
| `Preprocessor.ConditionalInText` | cpplint.py:2403-2457 | the same for lines of these texts, such as `#ifdef` and `#elif` |
| `Preprocessor.BranchRestarts` | cpplint.py:2438-2439 | in any surrounding conditionals, every `#else` or `#elif` meets the stack as it was before the `#if` |
| `NestingObjects.DeepCopy` | cpplint.py:2427-2439 | a copy holds the same blocks in new, distinct objects |
| `NestingObjects.NestingState.UpdatePreprocessor` | cpplint.py:2424-2457 | the objects follow the state machine; saved stacks share no block with the stack or with each other |
| `NestingObjects.NestingState.Apply` | cpplint.py:2486-2505 | a change of the top block in place reaches no saved stack |
| `NestingObjects.NestingState.Update` | cpplint.py:2460-2486 | the directive acts first, then the line's own edits |
| `NestingObjects.NestingState.UpdateAll` | cpplint.py:2460-2486 | processing a file is a run of the state machine |
| `Comments.FindNextMultiLineCommentStart` | cpplint.py:1311-1319 | the first line from the given one that starts an open comment |
| `Comments.FindNextMultiLineCommentEnd` | cpplint.py:1322-1328 | the first line from the given one that ends a comment |
| `Comments.RemoveRange` | cpplint.py:1331-1336 | exactly the range is overwritten |
| `Comments.RemoveMultiLineComments` | cpplint.py:1339-1352 | terminates on every input with the lines and the error of a one-pass automaton; only lines inside closed comments change |
| `Comments.EndsMeans` | cpplint.py:1325 | a line ends a comment exactly when it is anything, `*/` and white space |
| `Comments.StartsMeans` | cpplint.py:1314-1316 | a line starts an open comment exactly when it is white space, `/*` and a rest without `*/` |
| `Comments.CommentIsOverwritten` | cpplint.py:1339-1352 | exactly the lines of a comment become the placeholder; the lines before and after are treated as if it were not there |
| `Comments.UnclosedIsReported` | cpplint.py:1339-1352 | a comment that is never closed stays and is reported with the number of its first line |
| `Comments.QuietLinesStay` | cpplint.py:1339-1352 | lines of which none starts a comment stay as they are |
| `Comments.NothingStartsAfterRemoval` | cpplint.py:1311-1352 | without an error, no line that starts an open comment is left |
| `Comments.RemovedIdempotent` | cpplint.py:1339-1352 | removing twice is removing once, and reports the same unclosed comment |

## Left out

- Column types, `type_cast`, `AllTypeVariant` and `resolve_type`: values are taken as already typed, so the exception for a search value of the wrong type is not modelled.
- Updating the input of a scan in place: `TableScan.Execute` reads a table value. What compression during a scan does is stated in `Interleaving.dfy`, and what later operations leave of its results in `EndToEnd.ResultsOutliveRuns`.
- TableObjects.MutableTable.EmplaceChunk: a chunk that shares segment objects with the table, or holds one twice, is excluded; appends would then reach two chunks or columns at once, and chunks would no longer be independent values.
- Interleaving.CompressionIsInvisible: the scan of one segment, which holds on to it, is one step; object lifetime and the mutex are not modelled, and concurrent appends are documented as unsafe.
- `StorageManager`, `Print`, `load_table`, `PerformanceWarning` and the operator classes around the scan: wrappers and input/output.
- Round trips from `<` across `<<`, spaced `>=` and `operator`: the two matchers read these differently.
- What a line does to the nesting stack (`NestingState.Update` after the preprocessor part): regular expressions over C++ text; it is a parameter that may push, pop or change the top block in place, over any type of blocks, and may depend on the whole file. Of what it reads ahead, the end of a class is modelled; the search for template arguments is not.
- `previous_stack_top` of the nesting state: a read-only alias that no modelled operation uses.
- The search for the start pattern in `_GetTextInside`, the other checks of `cpplint.py`, raw strings and configuration.
- White space is the ASCII set of the regular expressions, also where `str.strip` would remove further Unicode spaces.
