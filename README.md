# Spreadsheet cleaning engine: a Dafny model

This project models the server-side core of a web tool that cleans two
spreadsheets before they are imported into an online shop:

- the **product sheet** ("productos");
- the **option sheet** ("opcionales"), whose rows are the options of the products.

The core is `src/app/actions.ts`. It has five parts.

- `escapeCSV` and `arrayToCSV` render a table as CSV. Module `Csv` models them. It also has a reader, and the lemma `CsvRoundTrip` proves that reading the rendered text gives back the table.
- `getNextPrefix` gives the prefix of the n-th duplicate: a letter `a`…`z` for the first 26, then `1`, `2`, …. Module `SkuPrefix` models it.
- `processProductos` is the product normaliser. Module `Productos` models it.
- `processOpcionales` is the option reconciler. Module `Opcionales` models it.
- Both components fill empty SKUs and rename duplicate SKUs with the same rule. Module `Dedup` states that rule once, as a reference definition over a sequence of entries. Each entry has a scope:
  - the whole file for products;
  - one product ID for options.

The shared helpers are:

- `Text`: JavaScript's `trim`, `indexOf` and `String(n)`.
- `Sheet`: cells, log entries, the blank test and `parseFloat` coercion.
- `Wrappers`: `Option`.

**Cells.** Input tables are sequences of rows of strings. Working and output cells are `Cell = Text(s) | Number(v)`:

- the price and quantity cells become JavaScript numbers;
- the option reconciler appends each row's spreadsheet row number as a number.

**Parsing numbers.** `parseFloat` is a parameter `parse: string -> Option<real>`. `None` stands for `NaN`.

**Log.** The logs are sequences of `LogEntry` values. They carry the row number, product ID and SKUs of each message, but not its Spanish wording.

**Imperative parts.** The parts that loop and update in place are methods with loop invariants:

- the price pass and the SKU pass of the products;
- the sync pass, the quantity pass, the grouping, the per-group SKU pass and the numeric pass of the options.

Each method is proved equal to a function of its input. The properties the code promises are then proved about those functions.

**Top-level methods.**

- `Productos.ProcessProductos` returns the output rows, the log and the ID→SKU map that `processProductos` returns.
- `Opcionales.ProcessOpcionales` returns the output rows and log of `processOpcionales`.

## Where the code departs from what it evidently means

The model follows the code in each case below.

- **Product rows without an ID are kept.**
  - The SKU pass logs such a row as omitted ("Se omitió la fila", `src/app/actions.ts:95-98`).
  - Yet it only leaves the row out of the SKU counting. The row stays in `finalData` with its SKU untouched.
  - `Productos.OutputRowLayout` states this.
- **SKUs are unique only per original SKU, not per file.**
  - Renaming duplicates (`src/app/actions.ts:110-118`) evidently aims at SKUs that are unique within a scope.
  - The code only renames repeats of the same trimmed SKU. A renamed or filled SKU can equal another row's original SKU.
  - `Dedup.RenameCanCollide` exhibits `["aABC", "ABC", "ABC"]` becoming `["aABC", "ABC", "aABC"]`.
  - `Dedup.FillCanCollide` exhibits `["a", ""]` becoming `["a", "a"]`.
  - What does hold is proved: rows of one scope with the same trimmed SKU end with different SKUs (`Dedup.DistinctWithinScope`, `Productos.ProductSkusDistinct`, `Opcionales.OutputSkusDistinct`).
- **The blank-row filter of the options never drops a row.**
  - `processOpcionales` applies the same blank-row filter as `processProductos`.
  - But it appends the row number first (`src/app/actions.ts:170-172`). Every row therefore has a non-blank cell, and the filter removes nothing (`Opcionales.NothingDropped`).
  - So a sheet whose only content row is blank yields one output row.
- **The option SKU sync needs both columns.** It runs only when the header has both `ID Producto` and `SKU Producto` (`src/app/actions.ts:148`). Lacking either one skips it.
- **The sync overwrites every mapped row.** Every row whose trimmed product ID has a non-empty mapped SKU gets that SKU, changed or not. A log line is written only for the first row of each ID whose trimmed SKU differs.

## Model

| member | source | states |
|---|---|---|
| Text.Trim | src/app/actions.ts:47 | `trim` leaves no space character at either end of its result |
| Text.TrimSlice | src/app/actions.ts:47 | `trim` removes exactly the spaces at the two ends: the result is the slice of the input after its leading spaces, and every character outside that slice is a space |
| Text.TrimFixpoint | src/app/actions.ts:47 | a string with no space at either end is its own trim, so trimming twice is trimming once |
| Text.IndexOf | src/app/actions.ts:62 | `indexOf` gives the first position holding the name, and -1 exactly when the name is absent |
| Text.IndexOfDistinct | src/app/actions.ts:145-146 | two different column names present in a header are found at different positions |
| Text.NatToString | src/app/actions.ts:40 | `String(n)` is a non-empty string of decimal digits with no leading zero |
| Text.DecimalRoundTrip | src/app/actions.ts:40 | reading the decimal rendering of `n` gives back `n` |
| Text.NatToStringInjective | src/app/actions.ts:40 | different numbers render differently |
| SkuPrefix.GetNextPrefix | src/app/actions.ts:33-41 | the prefix is non-empty and made of lower-case letters and digits |
| SkuPrefix.PrefixIsLetter | src/app/actions.ts:34-37 | below 26 the prefix is the count-th letter of the alphabet |
| SkuPrefix.PrefixIsNumber | src/app/actions.ts:38-40 | from 26 on the prefix is the decimal number `count - 25`, with no leading zero |
| SkuPrefix.PrefixInjective | src/app/actions.ts:33-41 | different counts give different prefixes, so letter and number prefixes never meet |
| SkuPrefix.PrefixHasNoSpace | src/app/actions.ts:33-41 | a prefix holds no space character, so trimming leaves it alone |
| Csv.EscapeCsv | src/app/actions.ts:15-25 | null/undefined render as `''`; a value with `;`, `"`, newline or `,` is wrapped in quotes; any other value is itself |
| Csv.EscapeRow | src/app/actions.ts:29 | each cell of a row is escaped in place |
| Csv.Lines | src/app/actions.ts:28-30 | line `i` of the output is row `i`'s escaped cells joined by the delimiter |
| Csv.ReadEscaped | src/app/actions.ts:15-25 | reading an escaped field up to a delimiter or newline gives back the value, quotes undoubled |
| Csv.ReadQuotedDoubled | src/app/actions.ts:21 | undoubling the quotes of a doubled string gives back the string |
| Csv.ReadRecord | src/app/actions.ts:29 | reading a joined row gives back its cells, and reading resumes after the row |
| Csv.CsvRoundTrip | src/app/actions.ts:27-31 | parsing the CSV text `arrayToCSV` produces with `,` or `;` gives back every row and cell |
| Sheet.Filter | src/app/actions.ts:72 | `filter` keeps exactly the elements the test accepts, and no more elements than it is given |
| Sheet.FilterInOrder | src/app/actions.ts:72 | the filter's result is the input's accepted elements in their original order, repeats kept: its t-th element sits at the t-th accepted position, these positions increase strictly, and a position is among them exactly when the test accepts its element |
| Sheet.NonBlankRows | src/app/actions.ts:72 | the data rows with a non-blank cell, in their order and with repeats: a row is kept exactly when some cell trims to a non-empty string |
| Sheet.IndicesOf | src/app/actions.ts:62 | each name's position is its `indexOf` in the header: inside the header, and -1 exactly when the header lacks the name |
| Sheet.TrimRow | src/app/actions.ts:47 | each header name is trimmed in place |
| Sheet.Coerce | src/app/actions.ts:83-84 | a parsed non-negative number is kept; `NaN` and negatives become 0; the result is never negative |
| Dedup.CountsOfSpec | src/app/actions.ts:111-120 | the `skuCounts` map holds a non-empty key exactly when it was seen, with its number of occurrences |
| Dedup.CountersOnEmpty | src/app/actions.ts:100-107 | a blank SKU is filled with the prefix of the empty counter, which then grows by one |
| Dedup.CountersOnRepeat | src/app/actions.ts:110-118 | a repeated SKU is renamed to the prefix of its count minus one followed by the trimmed SKU, and its count grows |
| Dedup.CountersOnFirst | src/app/actions.ts:119-121 | the first occurrence of a SKU is kept and its count becomes 1 |
| Dedup.FinalsSpec | src/app/actions.ts:90-123 | the SKUs the pass writes, row by row, are those the reference rule gives each row |
| Dedup.OccurrenceRule | src/app/actions.ts:100-122 | the t-th entry of a scope: blank is filled by its occurrence among blanks, the first of a key is kept, a later one gets the prefix of its occurrence minus two |
| Dedup.DistinctDecisions | src/app/actions.ts:110-118 | two rows with the same key and different earlier counts get different SKUs |
| Dedup.DistinctWithinScope | src/app/actions.ts:110-118 | two rows of one scope with the same trimmed SKU end with different SKUs |
| Dedup.FilledDistinct | src/app/actions.ts:101-106 | two blank SKUs of one scope are filled differently |
| Dedup.RenamedDistinct | src/app/actions.ts:113-114 | two renames of the same SKU with different counts differ |
| Dedup.RenamedDiffersFromKey | src/app/actions.ts:110-118 | a renamed SKU is never its original trimmed SKU |
| Dedup.KeepsSkuIffFirst | src/app/actions.ts:110-121 | a non-blank SKU keeps its trimmed value exactly when it was not seen before in its scope |
| Dedup.OnlyFirstKeepsSku | src/app/actions.ts:110-121 | the same, stated for row `i` of a sequence of entries |
| Dedup.CountZeroIffAbsent | src/app/actions.ts:111 | a key's count is zero exactly when no earlier row of the scope has it |
| Dedup.MappedIsTrimmedFinal | src/app/actions.ts:105-121 | the SKU recorded in the map is the trimmed final SKU, and never empty |
| Dedup.ChangedIffNotKept | src/app/actions.ts:100-122 | the SKU cell changes exactly when the row is filled or renamed |
| Dedup.ScopeIndependence | src/app/actions.ts:219-250 | each scope's SKUs depend only on that scope's rows, in order: the counters are per scope |
| Dedup.UniqueScopeUnchanged | src/app/actions.ts:119-121 | a scope whose SKUs are non-blank and distinct is left exactly as it was |
| Dedup.RenamedScopeSnoc | src/app/actions.ts:225-249 | processing one more row appends that row's decision to the earlier results |
| Dedup.RenameCanCollide | src/app/actions.ts:110-118 | a renamed SKU can equal another row's original SKU (`aABC`, `ABC`, `ABC` gives `aABC`, `ABC`, `aABC`) |
| Dedup.FillCanCollide | src/app/actions.ts:100-107 | a filled SKU can equal another row's original SKU (`a`, blank gives `a`, `a`) |
| Dedup.PositionsSpec | src/app/actions.ts:210-217 | a group's row list holds exactly its rows, in increasing order |
| Productos.MissingOf | src/app/actions.ts:65 | the missing list holds exactly the required names the header lacks, in the order of the required list |
| Productos.MissingIsAbsent | src/app/actions.ts:62-65 | the header is complete exactly when no required column has index -1 |
| Productos.Ordered | src/app/actions.ts:71-76 | working row `i` is the `i`-th non-blank content row projected onto the ten required columns: cell `k` is the row's cell under the k-th required name, or `''` when that position lies past the row's end |
| Productos.OutputFromContent | src/app/actions.ts:71-130 | output row `i` comes from the `i`-th non-blank data row: each copied column holds that row's cell of the same name, and the price is that row's price coerced |
| Productos.CoercePrices | src/app/actions.ts:82-85 | the price cell of every row becomes its coerced number, and nothing else changes |
| Productos.PriceRows | src/app/actions.ts:82-85 | the priced rows are the projected rows with the coerced price |
| Productos.SkuRow | src/app/actions.ts:90-123 | one row of the SKU pass advances counters, log, map and written SKUs exactly as the reference step does |
| Productos.SyncOmitted | src/app/actions.ts:95-98 | a row without ID is logged as omitted, its SKU untouched, map and counters unchanged |
| Productos.SyncFilled | src/app/actions.ts:100-107 | a blank SKU gets the next empty prefix, is logged and mapped, and the empty counter grows |
| Productos.SyncRenamed | src/app/actions.ts:110-118 | a seen SKU is renamed, logged and mapped, and its count grows |
| Productos.SyncKept | src/app/actions.ts:119-121 | a first SKU is kept, mapped to its trimmed value and counted once, with no log line |
| Productos.ScanSkus | src/app/actions.ts:87-123 | the SKU pass writes into each row the reference SKU, and returns the reference log and map |
| Productos.SkuStep | src/app/actions.ts:90-123 | one step keeps the counters, log, map and SKUs in agreement with the reference for one more row |
| Productos.RefFinals | src/app/actions.ts:87-123 | the reference SKUs of the whole sheet are the shared rule applied to the rows with an ID |
| Productos.ProductSkusDistinct | src/app/actions.ts:110-118 | two products with the same trimmed SKU end with different SKUs |
| Productos.OnlyFirstProductKeepsSku | src/app/actions.ts:110-121 | a product keeps its trimmed SKU exactly when no earlier product has that trimmed SKU |
| Productos.AbsentAmongProducts | src/app/actions.ts:111 | a key is unseen among the shared-rule entries exactly when no earlier product row has that trimmed SKU |
| Productos.ProductMap | src/app/actions.ts:105-121 | the map's keys are non-empty IDs of the sheet with non-empty values; each ID maps to the trimmed final SKU of its last row |
| Productos.LogStep | src/app/actions.ts:96-115 | after each row, the log has a line for exactly the omitted, filled and renamed rows, each with its row number, ID and final SKU |
| Productos.RefSpec | src/app/actions.ts:87-123 | the reference pass agrees with the shared rule, map and log descriptions at every row |
| Productos.OutputRowLayout | src/app/actions.ts:126-130 | an output row is the working row without the ID, with the coerced price, the final SKU (untouched for rows without ID) and every other cell copied |
| Productos.NormaliseRows | src/app/actions.ts:71-133 | the price and SKU passes produce the reference output rows, log and map |
| Productos.ProcessProductos | src/app/actions.ts:44-134 | under two rows gives nothing; a header missing columns gives one log line listing them and nothing else; otherwise the reference output, log and map |
| Opcionales.ColumnsOf | src/app/actions.ts:145-206 | each column position the reconciler uses is -1 or a position inside the trimmed header |
| Opcionales.ColumnsSeparate | src/app/actions.ts:145-206 | columns with different names that are present sit at different positions |
| Opcionales.ProductRefs | src/app/actions.ts:150-152 | each row's trimmed product ID and trimmed product SKU |
| Opcionales.SyncLog | src/app/actions.ts:148-160 | the sync log loop produces the reference sync lines |
| Opcionales.SyncLogAdd | src/app/actions.ts:151-158 | the first stale row of an ID adds one line with the mapped SKU and marks the ID as logged |
| Opcionales.SyncLinesMapped | src/app/actions.ts:151-156 | every sync line names a mapped ID and its mapped SKU |
| Opcionales.SyncLinesComplete | src/app/actions.ts:149-160 | a mapped ID has a sync line exactly when one of its rows held a different trimmed SKU |
| Opcionales.SyncLinesDistinct | src/app/actions.ts:151-157 | no ID is logged twice |
| Opcionales.SyncRows | src/app/actions.ts:162-167 | every row whose ID is mapped gets the mapped product SKU, all other cells unchanged |
| Opcionales.SyncedRows | src/app/actions.ts:162-167 | the synced rows are each row with its product SKU replaced when its ID is mapped |
| Opcionales.SyncSettles | src/app/actions.ts:148-168 | syncing already-synced rows writes no log line and changes nothing |
| Opcionales.Numbered | src/app/actions.ts:171 | row `i` becomes its cells followed by the number `i + 2` |
| Opcionales.KeepNonBlank | src/app/actions.ts:172 | the filter keeps the rows with a cell that has a value, in their order and with repeats, and only those |
| Opcionales.NothingDropped | src/app/actions.ts:170-172 | because the row number is appended first, the blank filter drops no row |
| Opcionales.FilledRow | src/app/actions.ts:180-204 | the quantity rule keeps the row's width (its effect on the cells is `Opcionales.QuantityRule`) |
| Opcionales.FillQuantities | src/app/actions.ts:180-204 | every row is replaced by its quantity-filled row |
| Opcionales.FilledRowKeeps | src/app/actions.ts:180-204 | cells other than the minimum and maximum are left alone |
| Opcionales.QuantityRule | src/app/actions.ts:188-203 | a set minimum leaves the row alone; with a maximum an empty minimum becomes 0; with neither both take the group quantity; afterwards the minimum has a value iff any of the three had one |
| Opcionales.GroupEntries | src/app/actions.ts:210-226 | each row belongs to the group of its trimmed product ID and carries its SKU cell |
| Opcionales.OptionStep | src/app/actions.ts:225-248 | one option row gets the shared rule's SKU and log line, with the counters of its group advanced |
| Opcionales.GroupCell | src/app/actions.ts:226-248 | the SKU cell of one row is rewritten with the rule's SKU and its line is appended |
| Opcionales.GroupStep | src/app/actions.ts:225-249 | after one more row of the group, the rows of the group so far hold their final SKUs and counters and lines agree |
| Opcionales.DedupGroup | src/app/actions.ts:220-249 | one group's pass writes its rows' final SKUs, leaves other rows alone, and logs that group's lines in row order |
| Opcionales.GroupRows | src/app/actions.ts:210-217 | grouping gives each trimmed ID the positions of its rows, in order |
| Opcionales.GroupRow | src/app/actions.ts:211-216 | each row is appended to the list of its own group |
| Opcionales.GroupsStep | src/app/actions.ts:220-250 | processing one more group keeps the finished groups' rows final and the pending groups' rows untouched |
| Opcionales.DedupGroups | src/app/actions.ts:207-251 | every row ends with its final SKU within its group, and the log is the groups' lines in some order of the groups |
| Opcionales.GroupLinesReport | src/app/actions.ts:225-249 | each line of a group reports a filled or renamed row of that group, with its row number and final SKU |
| Opcionales.OptionLinesSku | src/app/actions.ts:229-248 | a decision writes at most one line, for a fill or a rename, with the new SKU |
| Opcionales.GroupLinesCover | src/app/actions.ts:225-249 | every line a row's decision writes is in its group's log |
| Opcionales.GroupsLogReport | src/app/actions.ts:220-250 | every option line of the log reports a row of one of the groups |
| Opcionales.GroupsLogCover | src/app/actions.ts:220-250 | every line of a processed group is in the log |
| Opcionales.Projected | src/app/actions.ts:262-267 | a projected row has exactly the eleven output columns (their cells are `Opcionales.OutputAt`) |
| Opcionales.CoercedRow | src/app/actions.ts:269-277 | the two quantities and the price become coerced numbers; every other cell is unchanged |
| Opcionales.CoerceNumbers | src/app/actions.ts:269-277 | every output row is replaced by its coerced row |
| Opcionales.Worked | src/app/actions.ts:148-204 | the synced, numbered, quantity-filled rows: one per content row, one cell wider than the header |
| Opcionales.Filled | src/app/actions.ts:180-204 | the quantity rule applied to every row |
| Opcionales.Deduped | src/app/actions.ts:206-251 | the per-group SKU pass keeps the number and width of the rows |
| Opcionales.Reconciled | src/app/actions.ts:148-251 | the working rows after the SKU pass, one per content row |
| Opcionales.Finished | src/app/actions.ts:254-277 | each output row is the projected row with its numbers coerced |
| Opcionales.Output | src/app/actions.ts:140-277 | the output has one row per content row |
| Opcionales.OptionEntries | src/app/actions.ts:210-238 | each content row's group is its trimmed product ID, with its uploaded SKU |
| Opcionales.WorkedEntries | src/app/actions.ts:170-217 | the earlier passes do not touch the product ID and SKU cells the grouping reads |
| Opcionales.WorkedKeeps | src/app/actions.ts:162-204 | the product ID and option SKU cells reach the SKU pass as uploaded |
| Opcionales.WorkRows | src/app/actions.ts:148-204 | the sync, numbering, filter and quantity passes give the working rows and the sync log |
| Opcionales.SyncPass | src/app/actions.ts:148-168 | the sync runs only when both product columns exist, and then gives the synced rows and the sync lines |
| Opcionales.FillPass | src/app/actions.ts:180-204 | the quantity pass on a copy gives the filled rows |
| Opcionales.OptionPass | src/app/actions.ts:206-251 | the SKU pass runs only when both SKU and product ID columns exist, and gives the reconciled rows and the groups' lines |
| Opcionales.FinishRows | src/app/actions.ts:254-277 | projection and coercion give the finished rows |
| Opcionales.ProcessTable | src/app/actions.ts:140-279 | the rows are the reconciler's output; the log is the sync lines followed by the lines of every group, each group once |
| Opcionales.ProcessOpcionales | src/app/actions.ts:137-280 | under two rows gives nothing; otherwise the output rows and a log of the sync lines followed by the groups' lines |
| Opcionales.ReconciledAt | src/app/actions.ts:148-251 | a cell other than the quantities and the option SKU leaves the SKU pass as the sync left it |
| Opcionales.ReconciledSku | src/app/actions.ts:206-251 | the option SKU cell leaves the SKU pass with the final SKU of its row in its group |
| Opcionales.OutputAt | src/app/actions.ts:262-277 | an uncoerced output cell is the reconciled cell of its column, or `''` when the header lacks the column |
| Opcionales.SyncedAt | src/app/actions.ts:162-167 | only the product SKU cell of a mapped row changes in the sync |
| Opcionales.OutputProductSku | src/app/actions.ts:162-265 | the output product SKU is the mapped SKU when the row's trimmed ID is mapped, the uploaded cell otherwise |
| Opcionales.OutputOptionSku | src/app/actions.ts:206-265 | the output option SKU is the final SKU of the row in its product's group, or the uploaded cell when there is no product ID column |
| Opcionales.OutputNumbers | src/app/actions.ts:269-277 | the output quantities and price are non-negative numbers |
| Opcionales.OutputCopied | src/app/actions.ts:254-267 | the other output columns are the uploaded cells of the same name, or `''` |
| Opcionales.OutputPrice | src/app/actions.ts:269-276 | the output price is the coerced uploaded price, or 0 from `''` when the column is missing |
| Opcionales.OutputQuantityCells | src/app/actions.ts:274-275 | the output quantities are the coerced quantity cells of the working row |
| Opcionales.OutputQuantities | src/app/actions.ts:180-275 | the output quantities follow the fill rule in terms of the uploaded minimum, maximum and group quantity |
| Opcionales.WorkedQuantities | src/app/actions.ts:180-204 | the working quantity cells follow the fill rule in terms of the uploaded cells |
| Opcionales.OutputSkusDistinct | src/app/actions.ts:238-245 | two options of one product with the same trimmed SKU end with different SKUs |
| Opcionales.OutputSkuKeptIffFirst | src/app/actions.ts:238-248 | an option keeps its trimmed SKU exactly when no earlier option of its product has that trimmed SKU |
| Opcionales.OutputSkuNotBlank | src/app/actions.ts:229-248 | every output option SKU is non-blank when the SKU pass runs |
| Opcionales.LogOptionPart | src/app/actions.ts:142-243 | the option lines of the log are exactly the groups' lines |
| Opcionales.LogReportsFinal | src/app/actions.ts:225-249 | every option line names a content row and the SKU that row ends with |
| Opcionales.ChangedLine | src/app/actions.ts:229-245 | a row whose SKU the rule changes gets exactly one line, a fill or a rename, carrying its spreadsheet row number |
| Opcionales.LogCoversChanges | src/app/actions.ts:229-244 | every option whose SKU the run changes has a line in the log with its spreadsheet row number |

## Left out

- `processFiles`, `convertFiles`, `convertCsvToXlsx` (`src/app/actions.ts:283-485`): reading uploaded files, the workbook library, XLSX conversion and the form plumbing are I/O around the core.
- `parseFloat` is a parameter of the model. Its own parsing of number prefixes is not modelled, and numbers are reals rather than floating point.
- Cell values are strings. JavaScript's coercion of other cell types (`String(value)` of booleans, dates, `null` rendered as `"null"`) is not modelled. Neither are object keys that collide with `Object.prototype` members, such as `__proto__`.
- The Spanish wording of the log lines is not modelled. Each line is a `LogEntry` carrying the same row number, product ID and SKUs.
- Opcionales.ProcessOpcionales: requires every content row to be as wide as the header. The reconciler's behaviour on shorter rows, where cells read as `undefined`, is not modelled.
- Opcionales.ProcessOpcionales: the order of the groups in the option log is any enumeration of the trimmed product IDs (the ghost `order`). JavaScript's `for…in` order is not modelled: integer-like keys ascending, then insertion order.
- Opcionales.DedupGroups: same group order as above. The rows themselves do not depend on the order (`Dedup.ScopeIndependence`).
- Text.Trim: its own contract states only that the result has no space character at either end. `Text.TrimSlice` states that exactly the edge spaces are removed. Both use the whitespace set of ECMAScript's `trim`.
- Productos.ScanSkus, Opcionales.DedupGroup: these take the rows as sequence values and return the updated rows. The source writes `row[skuIndex]` into the row objects in place; the model does not capture that aliasing.
- Csv.CsvRoundTrip: stated for `,` and `;` as delimiters, tables of at least one row, and rows of at least one cell. An empty row renders as an empty line, which reads back as one empty cell.
