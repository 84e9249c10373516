# Textract bank-statement processing: a Dafny model

This project models the core of a .NET tool that turns bank-statement PDFs into structured
data with AWS Textract. The core has two parts:

- **The table processor** (`TextractTableProcessor`). It takes the flat list of Textract
  `Block`s a document analysis returns (PAGE, TABLE, CELL, WORD …). It rebuilds the tables as
  grids of trimmed cell texts (`ExtractTablesFromBlocks`, `GetCellText`). It then turns those
  grids into a `BankStatementData` (`FormatBankStatementData`):
  - A *summary* table has a header cell mentioning "account", "currency", "balance:", "period",
    "statement" or "branch". It fills the summary dictionary, either row by row (`[key, value]`
    rows) or key-over-value (two rows).
  - Any other table whose header row maps at least four canonical fields becomes a
    *transaction* table. The mapping uses the synonym table `HeaderMappings` and a
    case-insensitive substring search (`MapHeaders`, `FindMatchingHeader`). Each data row of
    the header's width becomes a `Transaction`, filled by reflection; rows with no content
    are dropped.
- **Three job registries**:
  - The core service's `JobTracker`: a list of `JobInfo` records with lookups, status updates,
    stable orderings by creation time, removal and age-based cleanup.
  - The job checker's `JobTracker`: a dictionary keyed by job id.
  - `JobRecordService`: a list of processed-document records.

Modules:

| module | file | models |
|---|---|---|
| `Wrappers` | wrappers.dfy | `Option` (a C# `null` result) |
| `Text` | text.dfy | `Trim`, `TrimEnd(char)`, `IsNullOrWhiteSpace`, `string.Join`, ordinal case-insensitive `Contains` |
| `Lists` | lists.dfy | `FirstOrDefault` by key, and the stable `OrderBy` sort |
| `Blocks` | blocks.dfy | Textract blocks and `GetCellText` |
| `Tables` | tables.dfy | `TableData` and `ExtractTablesFromBlocks` |
| `Headers` | headers.dfy | `HeaderMappings`, `FindMatchingHeader`, `MapHeaders` |
| `Statement` | statement.dfy | `Transaction`, `BankStatementData`, `FormatBankStatementData` |
| `JobTracking` | job_tracker.dfy | the core service's `JobTracker` |
| `JobChecking` | job_checker.dfy | the job checker's `JobTracker` |
| `JobRecords` | job_records.dfy | `JobRecordService` |

Each loop of the source that builds a result or changes state is a method with a `for` or
`while` loop. Its postcondition ties the result to a specification function on the inputs,
folded over prefixes. The early-return search loops are recursive functions instead:
the `foreach` of `FindMatchingHeader` is `Headers.FirstMatchFrom`; the key lookups
(`FirstOrDefault` by id, document or block id, and `IndexOf`) are `Lists.FirstIndexOf`; and the
reflection lookup of a property by name (`GetProperties().FirstOrDefault(...)`) is
`Statement.PropertyFrom`. The properties the
code promises are proved as lemmas about those functions. The registries are classes: their
lists or dictionary are fields, and the methods that update them say what the new state is.

### Two behaviours of the code worth knowing

- **Shared header column.** A header "Value Date" contains both "Date" and "Value Date".
  Each field is looked up independently, so both the Date and the Value Date field claim that
  column; no field has priority. See `Headers.SharedColumn`.
- **Unreachable transaction fields.** `Transaction` has the properties ValueDate, Deposit and
  Withdrawal, and the canonical keys include "Value Date", "Credit" and "Debit". The code finds
  the property to write by a case-insensitive *name* comparison with the canonical key. "Value
  Date" has a space and no property is named Credit or Debit, so those three properties are
  never written. A transaction therefore only carries Date, Reference, Description and Balance.
  See `Statement.SetterTableDropped` and `Statement.RowTransactionFields`.

## Model

| member | source | states |
|---|---|---|
| Text.TrimStartSpec | src/TextractTest.Core/Services/TextractTableProcessor.cs:47 | `TrimStart` keeps a suffix, drops only white space and leaves no leading white space |
| Text.TrimEndSpec | src/TextractTest.Core/Services/TextractTableProcessor.cs:47 | `TrimEnd` keeps a prefix, drops only white space and leaves no trailing white space |
| Text.TrimIsCore | src/TextractTest.Core/Services/TextractTableProcessor.cs:47 | the trimmed text has no white space at either end and is the infix of the input with only white space around it |
| Text.TrimOfTrimmed | src/TextractTest.Core/Services/TextractTableProcessor.cs:181 | a text with no white space at either end is its own `Trim` |
| Text.TrimIdempotent | src/TextractTest.Core/Services/TextractTableProcessor.cs:181 | trimming twice is trimming once |
| Text.TrimEmptyIff | src/TextractTest.Core/Services/TextractTableProcessor.cs:199-201 | `Trim` yields "" exactly when the text is null-or-white-space |
| Text.TrimEndChar | src/TextractTest.Core/Services/TextractTableProcessor.cs:199 | `TrimEnd(':')` keeps a prefix, drops only ':' and leaves no trailing ':' |
| Text.ContainsIgnoreCase | src/TextractTest.Core/Services/TextractTableProcessor.cs:48-49 | true exactly when some window of the text equals the sought text up to case |
| Lists.FirstIndexOf | src/TextractTest.Core/Services/JobTracker.cs:55 | the position of the first element with the key; None exactly when no element has it |
| Lists.FirstWith | src/TextractTest.Core/Services/JobTracker.cs:88 | `FirstOrDefault`: the first element with the key; None exactly when no element has it |
| Lists.FirstWithKeyUnique | src/TextractTest.Core/Services/JobTracker.cs:55 | the first position with a key is unique |
| Lists.SortBy | src/TextractTest.Core/Services/JobTracker.cs:83 | the stable `OrderBy`: sorted by key, a permutation of the input, elements sharing a key keep their relative order |
| Blocks.WordOf | src/TextractTest.Core/Services/TextractTableProcessor.cs:160-164 | one referenced id adds at most one word |
| Blocks.GetCellText | src/TextractTest.Core/Services/TextractTableProcessor.cs:149-170 | the nested loop computes the space-joined words of the cell; a cell without relationships yields "" |
| Blocks.CellWordsAreChildWords | src/TextractTest.Core/Services/TextractTableProcessor.cs:152-167 | a word is collected exactly when some "CHILD" relationship of the cell names a WORD block with that text (unknown ids, other block types and other relationship types add nothing) |
| Blocks.IdWords | src/TextractTest.Core/Services/TextractTableProcessor.cs:158-165 | a word comes from an id list exactly when one of its ids names a WORD block with that text |
| Tables.WithCellPlacement | src/TextractTest.Core/Services/TextractTableProcessor.cs:109-125 | placing a cell keeps the page and pads rows and the target row to reach the slot; the slot holds the text; every other cell keeps its value and new slots are "" |
| Tables.PlaceCell | src/TextractTest.Core/Services/TextractTableProcessor.cs:109-125 | the two padding loops and the write compute the cell placement |
| Tables.WriteCell | src/TextractTest.Core/Services/TextractTableProcessor.cs:104-126 | a CELL writes the trimmed text of its words at its 1-based row and column |
| Tables.ProcessBlock | src/TextractTest.Core/Services/TextractTableProcessor.cs:88-126 | one step of the block loop: a TABLE closes the open grid and opens an empty one on its page; a CELL fills the open grid; every other block, and a CELL with no open grid, changes nothing |
| Tables.ScanBlocks | src/TextractTest.Core/Services/TextractTableProcessor.cs:84-127 | the state of the block loop after a prefix of the blocks: a grid is open exactly when a TABLE block has been seen |
| Tables.ExtractTablesFromBlocks | src/TextractTest.Core/Services/TextractTableProcessor.cs:81-147 | the extracted grids are the closed grids plus the last open one, one per TABLE block in order, each on that block's page |
| Tables.OpenTableCellValid | src/TextractTest.Core/Services/TextractTableProcessor.cs:104-110 | a CELL that arrives while a table is open has valid indices |
| Tables.TablesFollowTableBlocks | src/TextractTest.Core/Services/TextractTableProcessor.cs:88-133 | exactly one grid per TABLE block, in order and with its page, including grids that never get a cell |
| Tables.StepPages | src/TextractTest.Core/Services/TextractTableProcessor.cs:88-103 | one step adds the page of a TABLE block and otherwise keeps the emitted pages |
| Tables.PrefixCellIndicesValid | src/TextractTest.Core/Services/TextractTableProcessor.cs:109-110 | valid cell indices hold for every prefix of the blocks |
| Tables.NoTableLeavesStart | src/TextractTest.Core/Services/TextractTableProcessor.cs:104 | blocks without a TABLE leave the scan in its start state: their cells are dropped |
| Tables.CellsBeforeFirstTableIgnored | src/TextractTest.Core/Services/TextractTableProcessor.cs:104 | prefixing blocks without a TABLE does not change the result |
| Tables.EmittedTablesAreFinal | src/TextractTest.Core/Services/TextractTableProcessor.cs:91-94 | a grid, once closed, is never changed by later blocks |
| Headers.FirstMatchFrom | src/TextractTest.Core/Services/TextractTableProcessor.cs:45-54 | the resumed scan returns the leftmost header whose trimmed text contains a synonym, or None when none does |
| Headers.FindMatchingHeader | src/TextractTest.Core/Services/TextractTableProcessor.cs:43-55 | the trimmed text of the leftmost header containing a synonym (case-insensitive); None exactly when no header contains one |
| Headers.IndexOf | src/TextractTest.Core/Services/TextractTableProcessor.cs:35 | `List.IndexOf`: the first position holding the text, -1 exactly when it is absent |
| Headers.MapHeaders | src/TextractTest.Core/Services/TextractTableProcessor.cs:22-42 | the loop over `HeaderMappings` builds the column map |
| Headers.KeysDistinct | src/TextractTest.Core/Services/TextractTableProcessor.cs:12-21 | the seven canonical keys are pairwise distinct |
| Headers.MapHeadersUpToLookup | src/TextractTest.Core/Services/TextractTableProcessor.cs:27-39 | after n lookups, a field is mapped exactly when it is among the first n and a synonym was found; it maps to that header's `IndexOf` |
| Headers.MapHeadersUpToKeys | src/TextractTest.Core/Services/TextractTableProcessor.cs:27-39 | after n lookups every key of the map is the canonical key of one of the first n entries |
| Headers.HeaderMapLookup | src/TextractTest.Core/Services/TextractTableProcessor.cs:22-42 | a field is in the map exactly when `FindMatchingHeader` finds one of its synonyms, and maps to the `IndexOf` of the match; no other key is in the map |
| Headers.MappedColumnIsFirstMatch | src/TextractTest.Core/Services/TextractTableProcessor.cs:181 | on trimmed headers, every mapped field points at a real column: the leftmost one containing a synonym |
| Headers.MapHeadersUpToSize | src/TextractTest.Core/Services/TextractTableProcessor.cs:228-230 | the map has at most one entry per canonical field |
| Headers.SharedColumn | src/TextractTest.Core/Services/TextractTableProcessor.cs:14-17 | a "Value Date" header is claimed by both the Date and the Value Date field |
| Statement.PropertyFrom | src/TextractTest.Core/Services/TextractTableProcessor.cs:248-249 | the resumed reflection search finds the first property whose name equals the key up to case |
| Statement.PropertyNamed | src/TextractTest.Core/Services/TextractTableProcessor.cs:248-249 | the property found has the key's name up to case; None exactly when no property does |
| Statement.SetterTableWritten | src/TextractTest.Core/Models/TextractModels.cs:14-36 | Date, Reference, Description and Balance reach the property of that name |
| Statement.SetterTableDropped | src/TextractTest.Core/Models/TextractModels.cs:14-36 | "Value Date", "Credit" and "Debit" reach no property |
| Statement.RowEntries | src/TextractTest.Core/Services/TextractTableProcessor.cs:195-200 | row-by-row summary format: one entry per row, key and value from its two cells |
| Statement.ColumnEntries | src/TextractTest.Core/Services/TextractTableProcessor.cs:208-215 | key-over-value format: one entry per column of the shorter row |
| Statement.SummaryTableWindows | src/TextractTest.Core/Services/TextractTableProcessor.cs:185-191 | a table is a summary table exactly when some trimmed header cell has a window equal to one of the six indicators, ASCII case ignored |
| Statement.TrimAll | src/TextractTest.Core/Services/TextractTableProcessor.cs:181 | the header row, each cell trimmed |
| Statement.TrimAllTrimmed | src/TextractTest.Core/Services/TextractTableProcessor.cs:181 | every trimmed header is trimmed |
| Statement.TrimmedColumnsValid | src/TextractTest.Core/Services/TextractTableProcessor.cs:227-246 | the map built from the trimmed header row only names columns inside the header |
| Statement.RowTransactionFields | src/TextractTest.Core/Services/TextractTableProcessor.cs:240-266 | a row's transaction carries the trimmed cells of the Date, Reference, Description and Balance columns ("" when unmapped); ValueDate, Deposit and Withdrawal stay "" |
| Statement.RowHasContent | src/TextractTest.Core/Services/TextractTableProcessor.cs:268-276 | a row's transaction is kept exactly when the Date, Reference, Description or Balance column gave a non-empty trimmed cell |
| Statement.TransactionColumn | src/TextractTest.Core/Services/TextractTableProcessor.cs:242-255 | a field's value is the trimmed cell under the leftmost header containing one of its synonyms, and "" when no header does |
| Statement.RowsTransactionsFromDataRows | src/TextractTest.Core/Services/TextractTableProcessor.cs:236-277 | every transaction is well formed and comes from a data row (not the header row) of the header's width |
| Statement.DataRowsYieldTransactions | src/TextractTest.Core/Services/TextractTableProcessor.cs:236-276 | every data row of the header's width whose transaction has a non-blank field yields that transaction |
| Statement.RowsTransactionsCount | src/TextractTest.Core/Services/TextractTableProcessor.cs:236 | a table of n rows yields at most n - 1 transactions |
| Statement.SummaryEntriesWellFormed | src/TextractTest.Core/Services/TextractTableProcessor.cs:195-221 | every summary entry has a trimmed value and a key not ending in ':' |
| Statement.PutAllWellFormed | src/TextractTest.Core/Services/TextractTableProcessor.cs:201-203 | storing only non-empty keys and values keeps the summary well formed |
| Statement.PutAllLastWriteWins | src/TextractTest.Core/Services/TextractTableProcessor.cs:203 | the last entry writing a key decides its value |
| Statement.PutAllUnwritten | src/TextractTest.Core/Services/TextractTableProcessor.cs:201-203 | a key no entry writes (empty key or value) keeps its earlier state |
| Statement.ProcessTableKinds | src/TextractTest.Core/Services/TextractTableProcessor.cs:179-230 | an empty table changes nothing; a summary table changes only the summary; any other table changes only the transactions, and only with at least four mapped fields |
| Statement.FormatWellFormed | src/TextractTest.Core/Services/TextractTableProcessor.cs:173-283 | every summary entry and every transaction of the result is well formed |
| Statement.BuildTransaction | src/TextractTest.Core/Services/TextractTableProcessor.cs:240-266 | the loop over the canonical fields builds the row's transaction |
| Statement.CollectTransactions | src/TextractTest.Core/Services/TextractTableProcessor.cs:236-277 | the loop over the data rows collects their transactions |
| Statement.SummaryFromRows | src/TextractTest.Core/Services/TextractTableProcessor.cs:195-206 | the row loop stores the row entries in order |
| Statement.SummaryFromColumns | src/TextractTest.Core/Services/TextractTableProcessor.cs:208-221 | the column loop stores the column entries in order |
| Statement.AddTable | src/TextractTest.Core/Services/TextractTableProcessor.cs:179-278 | the loop body adds one table's contribution |
| Statement.FormatBankStatementData | src/TextractTest.Core/Services/TextractTableProcessor.cs:173-283 | folds the tables in order; the result's summary and transactions are all well formed |
| JobTracking.PendingCounts | src/TextractTest.Core/Services/JobTracker.cs:81-82 | the pending records are the unfinished ones, each as often as in the list |
| JobTracking.SurvivorsCounts | src/TextractTest.Core/Services/JobTracker.cs:100-109 | cleanup removes every copy of each expired record and nothing else |
| JobTracking.JobTracker.constructor | src/TextractTest.Core/Services/JobTracker.cs:10-15 | the tracker starts with the records loaded from storage |
| JobTracking.JobTracker.AddJob | src/TextractTest.Core/Services/JobTracker.cs:37-51 | appends a SUBMITTED record created now, with no update time |
| JobTracking.JobTracker.GetJob | src/TextractTest.Core/Services/JobTracker.cs:53-56 | the first record with the id; None exactly when there is none |
| JobTracking.JobTracker.GetJobByDocument | src/TextractTest.Core/Services/JobTracker.cs:58-61 | the first record for the document; None exactly when there is none |
| JobTracking.JobTracker.UpdateJobStatus | src/TextractTest.Core/Services/JobTracker.cs:63-72 | the first record with the id gets the status and the update time |
| JobTracking.JobTracker.GetAllJobs | src/TextractTest.Core/Services/JobTracker.cs:74-77 | every record, newest first, stably |
| JobTracking.JobTracker.GetPendingJobs | src/TextractTest.Core/Services/JobTracker.cs:79-84 | the records whose status is neither SUCCEEDED nor FAILED, oldest first, stably |
| JobTracking.JobTracker.RemoveJob | src/TextractTest.Core/Services/JobTracker.cs:86-95 | drops the first record with the id, if any |
| JobTracking.JobTracker.CleanupOldJobs | src/TextractTest.Core/Services/JobTracker.cs:97-113 | keeps, in order, the records that are unfinished or created no earlier than `daysToKeep` (default 30) days before now |
| JobTracking.WithStatusEffect | src/TextractTest.Core/Services/JobTracker.cs:63-72 | the first record with the id gets the new status and update time; every other position, a later record with the same id included, keeps its record; a lookup afterwards sees the update; an unknown id changes nothing |
| JobTracking.WithoutJobEffect | src/TextractTest.Core/Services/JobTracker.cs:86-95 | removal drops exactly one copy of the record `GetJob` returns, or nothing |
| JobTracking.WithoutJobOrder | src/TextractTest.Core/Services/JobTracker.cs:86-95 | removal keeps the order: records before the first one with the id stay in place, the ones after it move up by one |
| JobTracking.CleanupKeepsPending | src/TextractTest.Core/Services/JobTracker.cs:97-113 | a cleanup leaves the pending records untouched |
| JobTracking.PendingAppend | src/TextractTest.Core/Services/JobTracker.cs:81-82 | the pending filter distributes over concatenation |
| JobTracking.CleanupIdempotent | src/TextractTest.Core/Services/JobTracker.cs:97-113 | a second cleanup with the same cutoff removes nothing |
| JobChecking.JobTracker.constructor | src/TextractTest.JobChecker/Services/JobTracker.cs:5 | the dictionary starts empty |
| JobChecking.JobTracker.AddJob | src/TextractTest.JobChecker/Services/JobTracker.cs:7-17 | stores a STARTED record under the id, replacing any earlier one |
| JobChecking.JobTracker.UpdateJobStatus | src/TextractTest.JobChecker/Services/JobTracker.cs:19-31 | a known id gets the status and update time, and an end time when the status is terminal; an unknown id is ignored |
| JobChecking.ApplyUpdateEffect | src/TextractTest.JobChecker/Services/JobTracker.cs:19-31 | an update keeps the key set and all other records, and keeps the record's id, document and start time |
| JobChecking.LastTerminalTime | src/TextractTest.JobChecker/Services/JobTracker.cs:25-28 | the time of the last terminal report; None exactly when there is none |
| JobChecking.ApplyAllTimes | src/TextractTest.JobChecker/Services/JobTracker.cs:19-31 | after a series of updates, the end time is that of the last terminal report (else unchanged); status and update time are the last report's |
| JobRecords.AnyProcessed | src/TextractTest.Core/Services/JobRecordService.cs:72-75 | true exactly when some record shows the document processed |
| JobRecords.JobRecordService.constructor | src/TextractTest.Core/Services/JobRecordService.cs:11-16 | the service starts with the records loaded from storage |
| JobRecords.JobRecordService.AddJobRecord | src/TextractTest.Core/Services/JobRecordService.cs:42-53 | appends a record processed now |
| JobRecords.JobRecordService.UpdateJobStatus | src/TextractTest.Core/Services/JobRecordService.cs:55-63 | the first record with the id gets the status |
| JobRecords.JobRecordService.GetJobRecord | src/TextractTest.Core/Services/JobRecordService.cs:65-68 | the first record with the id; None exactly when there is none |
| JobRecords.JobRecordService.HasBeenProcessed | src/TextractTest.Core/Services/JobRecordService.cs:70-76 | true exactly when a record of the document is COMPLETED and its output file exists |
| JobRecords.JobRecordService.GetAllJobRecords | src/TextractTest.Core/Services/JobRecordService.cs:78-81 | a copy: the same records in the same order |
| JobRecords.WithRecordStatusEffect | src/TextractTest.Core/Services/JobRecordService.cs:55-63 | only the status of the first record with the id changes; every other position, a later record with the same id included, keeps its record; a lookup afterwards sees the new status; an unknown id changes nothing |
| JobRecords.AddRecordProcessed | src/TextractTest.Core/Services/JobRecordService.cs:42-53 | adding a record never un-processes a document; adding a COMPLETED record whose output exists marks its document processed |

## Left out

- `ExtractFromJobId` (the paged `GetDocumentAnalysis` calls to AWS) is left out: it is remote I/O. The block list is a parameter of `Tables.ExtractTablesFromBlocks`.
- `SaveResults` is left out: it only writes files.
- `LoadJobs`, `SaveJobs`, `LoadJobRecords` and `SaveJobRecords` (JSON persistence) are left out. The loaded lists are constructor parameters.
- Console output is left out, including the per-page table count of `ExtractTablesFromBlocks`.
- Both `Program.cs` files, `DocumentProcessor.cs` and both `JobStatusChecker.cs` files are not part of this model.
- `DateTime.UtcNow` is a `now` parameter (ticks), and `File.Exists` is a `fileExists` function parameter.
- `Text.ToLower`: ordinal case folding is modelled for ASCII letters only. The synonyms, the summary indicators and the property names are ASCII, but header cells are recognised text and may not be; a non-ASCII letter in a header is compared without case folding.
- `Text.IsWhiteSpace` follows the Unicode White_Space set; `char.IsWhiteSpace` details beyond that set are not modelled.
- `JobInfo` and `JobRecord` are values, so the aliasing of a returned reference to the stored object is not modelled; the updates change the stored record, which is what the source's callers observe.
- `JobTracking.JobTracker.GetAllJobs` and `JobTracking.JobTracker.GetPendingJobs` return the ordered sequence at call time. The source returns deferred LINQ queries, which are evaluated when enumerated and so also see jobs added or removed after the call.
- `JobTracking.JobTracker.CleanupOldJobs` takes the clock first, so that `daysToKeep` can keep its default of 30 as the last parameter.
- `JobTracking.JobTracker.CleanupOldJobs`: the `ArgumentOutOfRangeException` that `AddDays` throws outside the `DateTime` range is not modelled; the cutoff is unbounded integer arithmetic.
- `JobChecking.JobTracker.UpdateJobStatus`: one `now` stands for the two `DateTime.UtcNow` reads of the source, so `EndTime` equals `LastUpdateTime`, where the source may differ by a clock tick.
- `Headers.MapHeaders`: the dictionary `HeaderMappings` is enumerated in declaration order (what .NET does for a dictionary that is only ever added to).
- `null` strings and a `null` `Relationships` list are modelled as empty.
- `Tables.ExtractTablesFromBlocks` requires that a CELL following a TABLE has row and column index at least 1; the source would throw `ArgumentOutOfRangeException` otherwise, and that exception is not modelled.
- The two `BankStatementData` classes: the processor imports the one in `BankStatementData.cs`, whose `Transactions` is a list of dictionaries, yet it adds `Transaction` objects, and `Transaction` is declared only in `TextractModels.cs`. The model follows `TextractModels.cs`: a list of `Transaction` values with the seven string properties the reflection sees.
- `Transaction` property setters are all writable strings, so `prop.CanWrite` is always true and is not modelled separately.
