# proxyoutreach, modelled in Dafny

proxyoutreach loads shareholder-vote prediction data into MySQL and serves
it to a browser UI. It has three parts:

- Python import scripts read CSV files, parquet files and spreadsheets, coerce
  each field, and write the rows in batches. Where they can, they resume,
  recover from duplicates, or cap the number of errors.
- An Express server answers the UI's queries and accepts outreach and
  account uploads.
- A browser UI pages, sorts and tabulates the results.

This project models the deterministic core under that plumbing and proves
what each piece promises.

Shared modules:

- `Wrappers`: `Option` and `Result`.
- `PyText` and `PyNum`: the parts of Python's `str`, `int()` and `float()` that
  the scripts rely on.
- `Dates`: `strptime` as an abstract partial function, with the order in which
  formats are tried.
- `Frames`: a pandas frame as column names plus rows.
- `RowStream`, `Batching`, `CappedLoop` and `ChunkedImport`: the four loop shapes
  the importers repeat. These are stopping at the first row that raises,
  slicing into batches, counting errors up to a cap, and resumable row-group
  loading.
- `JsValue`: the JavaScript values and operators that the server and the UI
  decide on.

Script modules, one per source file:

- `SdsUnifiedParquet`, `SdsCalibrated`, `ProxySelUnified` and `ProxySelVoted`:
  the parquet importers.
- `Outreach`, `CsvTableImport`, `ImportCsv`, `ImportCsvUpdate`, `ImportSdsVoted`
  and `CsvDirect`: the CSV importers of account and outreach rows.
- `ProposalsPredictions`, `ProposalsComprehensive`, `ProposalsBulk`,
  `PredictionsSds`, `PredictionsBulk`, `PredictionsNamed` and
  `ExcelProposals`: the prediction importers.
- `PreprocessCsv`, `VerifyCsv` and `SqlDump`: the preprocessor, the
  validator and the SQL-dump batcher.
- `Server` and `Script`: the decisions of server.js and public/script.js.

How the model treats what it cannot see:

- **Database:** a table is a sequence or map of rows. Each statement's outcome
  is a parameter: an oracle `ok(k)` for the `k`-th statement, or a predicate
  saying which tuples the server accepts. In `Outreach`, the server's collation
  (which two hashes it counts as the same key) and the fault a row raises are
  parameters too.
- **Files:** a file is the rows its reader yields, or `None` when it is missing
  or unreadable. The CSV importers, the preprocessor and the validator also
  take whether the reader raises after the last row it yields.
- **Imperative code:** loops that update counters and batches are methods,
  proved against functions that specify them. The lemmas about those functions
  state the accounting: every row inserted, skipped or counted as an error
  exactly once; resumption; and the unique key kept.
- **Case mapping:** JavaScript's `toLowerCase`, which the UI's sort applies,
  is a parameter, since it maps the whole of Unicode.
- **Source files that disagree:** where two copies of a helper differ, each
  copy is modelled separately. Examples are `safe_int` against `parse_int`,
  and the blank, `-1` and unknown-boolean cases.

The main of import_proposals_predictions_bulk.py (lines 287-331) matches the
main of the comprehensive script line for line, apart from its messages. It is
modelled once, by `ProposalsComprehensive.RunMapping`.

## Model

| member | source | states |
|---|---|---|
| PyText.TrimStart | import_csv_direct.py:54 | the leading characters removed are whitespace and what is left does not start with any |
| PyText.TrimEnd | import_csv_direct.py:54 | the trailing characters removed are whitespace and what is left does not end with any |
| PyText.Strip | import_csv_direct.py:54 | `str.strip()` neither starts nor ends with whitespace, and is empty exactly when the string is all whitespace |
| PyText.StripClean | import_csv_direct.py:54 | a string without surrounding whitespace is left as it is |
| PyText.StripIdempotent | import_csv_direct.py:54 | stripping twice is stripping once |
| PyText.Lower | import_csv_direct.py:58 | `str.lower()` maps each character and keeps the length |
| PyText.Upper | import_predictions_bulk.py:59 | `str.upper()` maps each character and keeps the length |
| PyText.StripLower | import_csv_direct.py:54-58 | stripping and lower-casing commute |
| PyText.MapCharsCompose | import_csv_direct.py:83 | two character-wise rewrites in a row are one rewrite by the composed map |
| PyText.ReplaceChar | import_csv_direct.py:83 | replacing a character that does not occur leaves the string unchanged |
| PyText.Join | import_csv_direct.py:87 | joining a single part gives that part |
| PyNum.SplitSign | import_outreach.py:92 | an optional leading sign is split off, and the result is negative exactly when that sign is `-` |
| PyNum.FirstIndex | import_outreach.py:92 | the position of the first occurrence of a character, or the length when there is none |
| PyNum.TruncDiv | import_outreach.py:92 | division that truncates toward zero, as `int()` of a float does |
| PyNum.IntOf | import_outreach.py:92 | `int(x)` of a float: a ValueError for NaN, an OverflowError for infinity, else the value truncated toward zero |
| PyNum.IntOfFloatString | import_outreach.py:92 | `int(float(s))`: a ValueError when `float` rejects the text, else `int` of the float it reads |
| PyNum.DigitChar | import_outreach.py:92 | each decimal digit has its character |
| PyNum.NatToString | import_outreach.py:92 | the decimal text of a natural number is digits that read back as it |
| PyNum.IntToStringParts | import_outreach.py:92 | the text of an integer has no surrounding space and is `-` and the digits of its magnitude exactly when it is negative |
| PyNum.ParseIntOfIntString | import_predictions_bulk.py:46-53 | `int()` reads back the text of an integer |
| PyNum.ParseFloatOfIntString | import_outreach.py:92 | `float` then `int` read back the text of an integer |
| PyNum.IntStrictRejectsPoint | import_predictions_bulk.py:46-53 | `int()` rejects any text with a decimal point, so `int("123.0")` raises |
| PyNum.DropUnderscores | import_predictions_bulk.py:46-53 | dropping the `_` of a grouped run leaves exactly its digits, and a run of plain digits is left as it is |
| PyNum.GroupedTextInt | import_predictions_bulk.py:46-53 | on digits and underscores, `int()` succeeds exactly on PEP 515 grouped text and reads its digits |
| PyNum.UnderscoreBetweenDigits | import_predictions_bulk.py:46-53 | an `_` between two digits does not change what `int()` reads, so `int("1_000") == 1000` |
| PyNum.MisplacedUnderscore | import_predictions_bulk.py:46-53 | a doubled, leading or trailing `_` makes `int()` raise |
| Dates.FirstParsing | import_predictions_sds.py:39-43 | the index of the first format `strptime` accepts; every earlier format fails |
| Dates.TryFormats | import_predictions_sds.py:33-46 | `None` exactly when every format fails; otherwise the date one of the formats gives |
| Dates.EarlierFormatWins | import_predictions_sds.py:39-43 | when the first format that parses is format `i`, its date is the result |
| Dates.ZeroPad | import_proposals_predictions.py:18 | the zero-padded text is digits, at least the width, reading back as the number |
| Dates.Pad | import_proposals_predictions.py:18 | left padding with zeros keeps the value |
| Dates.PadExact | import_proposals_predictions.py:18 | a number that fits the width is padded to exactly that width |
| Dates.IsoTextReadsBack | import_proposals_predictions.py:18 | `strftime('%Y-%m-%d')` of a valid date is ten characters whose year, month and day fields read back as the date |
| Frames.ColumnIndex | import_proxy_sds_calibrated_unified.py:219-230 | the position of the first column with the name, or the column count when there is none |
| Frames.Lookup | import_proxy_sds_calibrated_unified.py:219-230 | `row[name]` finds a cell exactly when the column exists |
| Frames.CopyColumnIfAbsent | import_proxy_sds_calibrated_unified.py:205-210 | `df[dst] = df[src]` runs only when `src` exists and `dst` does not, appending a copy of `src` to every row; otherwise the frame is unchanged |
| Frames.CopyColumnReadsOld | import_proxy_sds_calibrated_unified.py:205-210 | after the copy, `dst` reads what it read before, or what `src` reads when it was absent |
| Frames.CopyColumnKeepsOthers | import_proxy_sds_calibrated_unified.py:205-210 | the copy leaves every other column as it was |
| Frames.KeepPresent | import_proxy_sds_calibrated_unified.py:688 | `[col for col in required if col in df.columns]` keeps exactly the required names that exist |
| Frames.KeepAbsent | import_proxy_sds_calibrated_unified.py:683 | `[col for col in required if col not in df.columns]` keeps exactly the required names that are missing |
| Frames.KeepPartition | import_proxy_sds_calibrated_unified.py:683-688 | each required name is either present or missing |
| Frames.KeepPresentInOrder | import_proxy_sds_calibrated_unified.py:688 | the kept names are distinct and in the order of the required list |
| Frames.Select | import_proxy_sds_calibrated_unified.py:689 | `df[cols]` succeeds exactly when every name exists, and then each row holds those columns' cells in that order |
| Frames.SelectExisting | import_proxy_sds_calibrated_unified.py:683-692 | the present and missing required names split the list, and the frame is projected on the present ones |
| Frames.ConvertCell | import_proxy_sds_calibrated_unified.py:214-230 | a null or infinite cell becomes `None`; `int(x)` truncates a number and raises on text that is not an integer; `float(x)` raises on text that is not a float |
| Frames.ConvertRow | import_proxy_sds_calibrated_unified.py:219-230 | a converted row has one value per named column |
| Frames.ConvertRowMeaning | import_proxy_sds_calibrated_unified.py:219-230 | a row converts exactly when every named cell exists and converts, and then position `k` holds column `k`'s conversion |
| Frames.ProcessChunk | import_proxy_sds_calibrated_unified.py:199-234 | every row converted, in order, when all convert; an empty list when any row raises |
| RowStream.ProcessedGrows | import_csv_direct.py:46-97 | reading more rows only extends the values read, and nothing is read after the first row that raises |
| RowStream.ProcessedMeaning | import_csv_direct.py:46-97 | the loop runs to the end exactly when no row raises, and then it yields each row's value in order |
| RowStream.ProcessedSnoc | import_csv_direct.py:46-97 | one more row either raises and stops the loop or appends its value |
| RowStream.Good | import_predictions_sds.py:127-193 | the rows stored when raising rows are counted and skipped: at most one per row |
| RowStream.Bad | import_predictions_sds.py:183-188 | `success_count + error_count` is the number of rows read |
| RowStream.GoodSnoc | import_predictions_sds.py:127-193 | one more row adds its value to the stored rows or one to the errors |
| RowStream.GoodWhenNoneRaise | import_predictions_sds.py:127-193 | when no row raises, the stored rows are all the values, in order, and there are no errors |
| RowStream.Leading | import_csv_direct.py:93-100 | the number of leading batches that succeed before the first failing one |
| RowStream.LeadingAll | import_csv_direct.py:93-100 | when every batch succeeds, all of them count |
| RowStream.LeadingStops | import_csv_direct.py:93-100 | the count stops at the first failing batch |
| Batching.Slices | import_outreach.py:282-283 | `rows[i:i + size]` for `i` in `range(0, len(rows), size)`: non-empty slices of `size` rows, the last possibly shorter, whose concatenation is the rows |
| Batching.SlicesPrefix | import_outreach.py:282-283 | the first `d` slices carry exactly the first `min(d * size, len(rows))` rows |
| Batching.SlicesCharacterized | import_outreach.py:282-283 | any split into full pieces of `size` and a shorter last piece is the slicing of its concatenation |
| Batching.FlattenFullLength | import_outreach.py:282-283 | full slices hold `size` rows each |
| Batching.CommitSlices | import_proxy_sds_calibrated_unified.py:386-390 | the slices are executed and committed in order until one raises: exactly the leading successful slices' rows are committed |
| CappedLoop.ConsumedFrom | import_predictions_sds.py:187-193 | the rows read before the loop breaks lie between where it started and the end |
| CappedLoop.ConsumedFromMeaning | import_predictions_sds.py:187-193 | the loop reads on while the error count stays within the cap and stops at the row that passes it |
| CappedLoop.Attempts | import_predictions_sds.py:127-186 | each row's outcome: its converted value when it converts and its INSERT succeeds, an error otherwise |
| CappedLoop.InsertEach | import_predictions_sds.py:127-198 | the row-at-a-time loop: the rows inserted and the error count are those of the rows read before the break, and `success_count` counts the rows inserted |
| CappedLoop.InsertEachStops | import_predictions_sds.py:187-193 | the loop stops exactly at the row whose error takes the count to `cap + 1`, or reads every row |
| CappedLoop.InsertEachClean | import_predictions_sds.py:127-198 | with every row converting and inserting, every row is read and inserted and there are no errors |
| CappedLoop.NothingConverts | import_predictions_sds.py:187-193 | when no row converts nothing is inserted and the loop stops after `cap + 1` rows, or at the end |
| CappedLoop.FirstFailure | import_predictions_sds.py:127-186 | a run stops early exactly when some row fails to convert or insert |
| CappedLoop.Step | import_proposals_predictions_bulk.py:190-259 | one row of the batch loop: a converted row joins the pending rows, an error adds one to the count, and the loop stops once the count passes the cap |
| CappedLoop.RunSnoc | import_proposals_predictions_bulk.py:190-259 | a row after the loop stopped changes nothing, any other is one `Step` |
| CappedLoop.RunStopped | import_proposals_predictions_bulk.py:256-259 | once the loop has stopped the remaining rows are not read |
| CappedLoop.BatchLoop | import_proposals_predictions_bulk.py:190-266 | the batch loop computes the state `Run` specifies, and `success_count` counts the committed rows |
| CappedLoop.RunMeaning | import_proposals_predictions_bulk.py:190-266 | the rows committed or pending are a prefix of the good rows, all of them when the loop did not stop; errors are the bad rows plus the failed batch calls; the loop stops exactly when errors pass the cap |
| CappedLoop.CleanRun | import_proposals_predictions_bulk.py:190-266 | with every row converting and every call succeeding there are no errors and every row is committed or pending |
| CappedLoop.Flush | import_proposals_predictions_bulk.py:261-266 | the final `executemany` of the pending rows commits them when it succeeds; otherwise only the earlier batches are kept |
| ChunkedImport.ResumePoint | import_proxy_sds_calibrated_unified.py:421-450 | the number of leading row groups whose rows the table already holds: their total is at most the row count and one more group would pass it |
| ChunkedImport.ResumePointUnique | import_proxy_sds_calibrated_unified.py:438-443 | that number is the only one with this property |
| ChunkedImport.ResumeFromEmpty | import_proxy_sds_calibrated_unified.py:438-443 | an empty table resumes at the first row group |
| ChunkedImport.ResumeAfterCommittedPrefix | import_proxy_sds_calibrated_unified.py:438-443 | a table holding exactly the first `j` groups resumes at group `j` |
| ChunkedImport.ResumeTieExamples | import_proxy_sds_calibrated_unified.py:440 | a count equal to a group boundary counts that group as loaded; a count inside a group resumes at that group |
| ChunkedImport.ResumeScan | import_proxy_sds_calibrated_unified.py:435-450 | the scan returns the resume point and the rows of the groups before it |
| ChunkedImport.Range | import_proxy_sds_calibrated_unified.py:371 | `range(lo, hi)`: the indices from `lo` up to `hi` |
| ChunkedImport.CommittedBounded | import_proxy_sds_calibrated_unified.py:371-403 | the rows committed from a range of groups are at most their size, and all of them when every group loads |
| ChunkedImport.ResumedLoadCompletes | import_proxy_sds_calibrated_unified.py:456-497 | after an interrupted run that committed the first `j` groups, resuming and loading every group brings the table to the file's size |
| ChunkedImport.LoadRowGroups | import_proxy_sds_calibrated_unified.py:238-348 | nothing happens when `skip_row_groups >= num_row_groups`; otherwise groups `skip..` are visited in order and the total counts the rows of the groups that load |
| ChunkedImport.LeadingOk | import_proxy_sds_calibrated_unified.py:386-390 | the number of leading slices of a group that commit before one raises |
| ChunkedImport.LeadingOkUnique | import_proxy_sds_calibrated_unified.py:386-390 | that number is the only one with this property |
| ChunkedImport.BatchInsertRowGroups | import_proxy_sds_calibrated_unified.py:350-419 | nothing happens when every group is skipped; otherwise each group from `skip` on commits its leading successful slices, and the total counts the rows committed |
| ChunkedImport.BatchCommitsAll | import_proxy_sds_calibrated_unified.py:350-419 | when every slice succeeds, every row of the groups loaded is committed, in order |
| SdsCalibrated.GetTableConfig | import_proxy_sds_calibrated_unified.py:160-197 | a configuration exactly for `account_voted` and `account_unvoted`, both on `score_model2`/`prediction_model2` and the nine required columns; any other table raises |
| SdsCalibrated.AliasLegacyColumns | import_proxy_sds_calibrated_unified.py:205-210 | the two legacy copies keep the frame well formed and its row count |
| SdsCalibrated.AliasLegacyUnfold | import_proxy_sds_calibrated_unified.py:205-210 | the alias step is the `score_model1` copy followed by the `prediction_model1` copy |
| SdsCalibrated.AliasCopiesOnlyWhenAbsent | import_proxy_sds_calibrated_unified.py:205-210 | `score_model2` and `prediction_model2` read their own cells when present, else the legacy columns' |
| SdsCalibrated.ProcessDataframeChunk | import_proxy_sds_calibrated_unified.py:199-236 | an unknown table gives no rows; otherwise, when every row converts, one nine-value row per input row |
| SdsCalibrated.ApplyAliasesSnoc | import_proxy_sds_calibrated_unified.py:669-673 | the mapping loop applies its copies one pair at a time, in order |
| SdsCalibrated.Sizes | import_proxy_sds_calibrated_unified.py:143-155 | the row count of each row group |
| SdsCalibrated.ImportWithBatchInsert | import_proxy_sds_calibrated_unified.py:350-419 | 0 for an unknown table, an unreadable file or a skip past the last group; otherwise the rows committed by the slices that succeed |
| SdsCalibrated.EffectiveLoads | import_proxy_sds_calibrated_unified.py:265-333 | a group's LOAD DATA commits exactly when it succeeds and the aliased group holds all nine columns |
| SdsCalibrated.ImportWithLoadData | import_proxy_sds_calibrated_unified.py:238-348 | it falls back to batch inserts exactly for an unknown table, a failed setup or `local_infile` not ON; otherwise the total counts the groups from `skip` that load |
| SdsCalibrated.CalculateResumePoint | import_proxy_sds_calibrated_unified.py:421-454 | 0 for an empty table or an unreadable file, else the resume point of the current count |
| SdsCalibrated.ProcessSingleFile | import_proxy_sds_calibrated_unified.py:456-519 | failure for a missing or unreadable file; success without importing when the table already holds every row; otherwise the import runs from the resume point and succeeds exactly when the final count reaches the file's rows |
| SdsCalibrated.ApplyColumnMapping | import_proxy_sds_calibrated_unified.py:669-673 | the mapping loop yields the aliased frame |
| SdsCalibrated.MapColumns | import_proxy_sds_calibrated_unified.py:655-692 | the required columns split into present and missing after aliasing, and the frame is projected on the present ones |
| SdsCalibrated.MapColumnsOrder | import_proxy_sds_calibrated_unified.py:682-689 | the columns used are distinct, in the required order, and with the missing ones account for all nine |
| SdsCalibrated.ImportSelection | import_proxy_sds_calibrated_unified.py:601-649 | a selected table whose file is missing, or no connection, stops the run with nothing processed; otherwise every selected table is processed and the run succeeds exactly when each did |
| SdsUnifiedParquet.GetTableConfig | import_sds_unified_parquet.py:166-203 | a configuration exactly for `account_voted` (on `score_model2`/`prediction_model2`) and `account_unvoted` (on `score_model1`/`prediction_model1`), each the six key columns, its two model columns and `Target_encoded`; any other table raises |
| SdsUnifiedParquet.ProcessDataframeChunk | import_sds_unified_parquet.py:205-233 | an unknown table gives no rows; otherwise, when every row converts, one nine-value row per input row |
| SdsUnifiedParquet.Sizes | import_sds_unified_parquet.py:149-164 | the row count of each row group |
| SdsUnifiedParquet.ImportWithBatchInsert | import_sds_unified_parquet.py:335-404 | 0 for an unknown table, an unreadable file or a skip past the last group; otherwise the rows committed by the 5000-row slices that succeed |
| SdsUnifiedParquet.ImportWithLoadData | import_sds_unified_parquet.py:235-333 | it falls back to batch inserts, with the same skip, exactly for an unknown table, a failed setup or `local_infile` not ON; otherwise the total counts the rows of the groups from `skip` that load |
| SdsUnifiedParquet.CalculateResumePoint | import_sds_unified_parquet.py:406-439 | 0 for an empty table or an unreadable file, else the number of leading groups the count covers |
| SdsUnifiedParquet.ResumedImportReachesTotal | import_sds_unified_parquet.py:406-502 | when a run stopped after `j` whole groups and every group then loads, the resumed import brings the table to the file's row count |
| SdsUnifiedParquet.ProcessSingleFile | import_sds_unified_parquet.py:441-502 | failure for a missing or unreadable file; success without importing when the table already holds every row; otherwise the import runs from the resume point and succeeds exactly when the final count reaches the file's rows |
| SdsUnifiedParquet.SelectedTables | import_sds_unified_parquet.py:533-541 | `voted` selects only `account_voted`, `unvoted` only `account_unvoted`, `both` the two with the voted table first |
| SdsUnifiedParquet.ImportSelection | import_sds_unified_parquet.py:520-552 | without a connection nothing is processed; otherwise every selected table is processed, even after a failure, and the run succeeds exactly when each selected table's file did |
| ProxySelUnified.VariationsDisjoint | import_proxy_sel_unified.py:85-89 | no name is a variant of two expected columns |
| ProxySelUnified.FirstPresent | import_proxy_sel_unified.py:92-97 | the first variant, in the listed order, that is a column of the frame, or none when no variant is |
| ProxySelUnified.FirstVariant | import_proxy_sel_unified.py:92-97 | the inner `for variant ...: break` loop finds that first present variant |
| ProxySelUnified.AssignKeys | import_proxy_sel_unified.py:91-97 | a frame column is renamed exactly when it is the first present variant of some missing column |
| ProxySelUnified.AssignOnly | import_proxy_sel_unified.py:91-97 | a renamed column takes the name of the last missing column that chose it |
| ProxySelUnified.MappingValues | import_proxy_sel_unified.py:91-97 | with disjoint variant lists each chosen variant is renamed to its own missing column |
| ProxySelUnified.VariantMapping | import_proxy_sel_unified.py:76-97 | the nested loops build the mapping of the missing columns to their first present variants |
| ProxySelUnified.Rename | import_proxy_sel_unified.py:99-100 | `df.rename(columns=mapping)` renames the mapped columns and keeps the others |
| ProxySelUnified.VariationsApart | import_proxy_sel_unified.py:64-89 | no variant is itself an expected column |
| ProxySelUnified.ResolvedByMeaning | import_proxy_sel_unified.py:76-102 | nothing is renamed when no column is missing; an expected column is present afterwards exactly when it was, or one of its variants was |
| ProxySelUnified.ResolvedMeaning | import_proxy_sel_unified.py:76-102 | the same for this script's expected columns and variants |
| ProxySelUnified.ToNumeric | import_proxy_sel_unified.py:115-120 | `pd.to_numeric(errors='coerce')`: a missing cell is NaN, a number stays itself |
| ProxySelUnified.RoundHalfEven | import_proxy_sel_unified.py:116 | `.round()` gives the nearest integer, ties to even |
| ProxySelUnified.RoundDiv | import_proxy_sel_unified.py:116 | the nearest quotient, ties to even |
| ProxySelUnified.CleanInt | import_proxy_sel_unified.py:113-116 | an integer column rounds half to even, NaN becomes 0, and an infinite value makes `astype(int)` raise |
| ProxySelUnified.CleanText | import_proxy_sel_unified.py:122-130 | `astype(str)` with `'nan'` and `'None'` replaced by the empty string |
| ProxySelUnified.CleanCell | import_proxy_sel_unified.py:112-130 | each column is cleaned by its kind: integer, float (NaN stays null) or text |
| ProxySelUnified.CleanRow | import_proxy_sel_unified.py:112-130 | each cell of a row is cleaned by its column's kind |
| ProxySelUnified.Selected | import_proxy_sel_unified.py:76-107 | after the variant step the frame is projected on the expected columns present, in order |
| ProxySelUnified.Project | import_proxy_sel_unified.py:105-106 | `df[available_columns]` keeps the expected columns present, in order, and every row |
| ProxySelUnified.RowCleansMeaning | import_proxy_sel_unified.py:113-116 | a row cleans exactly when none of its integer cells is infinite |
| ProxySelUnified.CleanFrameFails | import_proxy_sel_unified.py:112-133 | cleaning raises exactly when the hash column is missing or some integer cell is infinite |
| ProxySelUnified.CleanFrameRows | import_proxy_sel_unified.py:112-133 | the cleaned rows are no more than the input rows, each of the right shape and with a non-blank hash key |
| ProxySelUnified.CleanRowShape | import_proxy_sel_unified.py:112-130 | a cleaned row has integers in the integer columns and text other than `nan`/`None` in the text columns |
| ProxySelUnified.ValidateAndClean | import_proxy_sel_unified.py:58-136 | `validate_and_clean_data` yields the cleaned projection of the resolved frame |
| ProxySelUnified.NumBatches | import_proxy_sel_unified.py:184 | the number of 1000-row batches that cover the rows |
| ProxySelUnified.CommittedBatches | import_proxy_sel_unified.py:184-208 | the loop commits exactly the leading batches that succeed |
| ProxySelUnified.LoadRows | import_proxy_sel_unified.py:155-218 | the table and count after the DELETE and the batch loop are as `Loaded` states |
| ProxySelUnified.LoadedMeaning | import_proxy_sel_unified.py:155-218 | the count is 0 or every cleaned row, which then is the table; after a successful DELETE the table is a prefix of the rows and the count is non-zero exactly when every batch commits |
| ProxySelUnified.ImportParquetToTable | import_proxy_sel_unified.py:138-221 | a missing or unreadable file leaves the table alone and reports 0; otherwise the cleaned rows replace the table as `Loaded` states |
| ProxySelUnified.ExitStatus | import_proxy_sel_unified.py:223-345 | `main` exits 1 when no file exists, without a connection, or when the imports together report nothing, and 0 otherwise |
| ProxySelUnified.LookupVariant | import_proxy_sel_unified.py:92-97 | a missing column with listed variants gets its first variant present in the frame; one without gets none |
| ProxySelUnified.NotExpected | import_proxy_sel_unified.py:85-89 | no listed variant is itself an expected column |
| ProxySelVoted.PresentColumnMatched | import_proxy_sel_account_voted.py:77-81 | an expected column that is present always finds a match, since a name contains itself |
| ProxySelVoted.FirstMatch | import_proxy_sel_account_voted.py:78-81 | the first frame column whose lower-case name contains, or is contained in, the expected one; none when no column matches |
| ProxySelVoted.FirstMatching | import_proxy_sel_account_voted.py:78-81 | the inner `for actual_col ...: break` loop finds that first match |
| ProxySelVoted.FuzzyMapping | import_proxy_sel_account_voted.py:76-81 | the nested loops assign each expected column, in order, to its first match, a later one overwriting an earlier one on the same column |
| ProxySelVoted.FuzzyResolved | import_proxy_sel_account_voted.py:70-85 | the column names keep their number, and are unchanged when no expected column is missing |
| ProxySelVoted.FuzzyResolvedMeaning | import_proxy_sel_account_voted.py:76-85 | a column that is nobody's first match keeps its name; the first match of expected column `i` takes its name when no later expected column matches it first |
| ProxySelVoted.RenameCollision | import_proxy_sel_account_voted.py:76-85 | the fuzzy rename can give two columns one name: a column renamed to an expected name that another column already carries, and keeps, leaves that name repeated (a `score` before `score_model2`, say) |
| ProxySelVoted.PositionsOf | import_proxy_sel_account_voted.py:88-89 | the positions listed for a label all lie in the frame and carry that label |
| ProxySelVoted.PositionsOfComplete | import_proxy_sel_account_voted.py:88-89 | every column carrying the label is listed, so `df[names]` takes all columns of a repeated label |
| ProxySelVoted.Selection | import_proxy_sel_account_voted.py:88-89 | `df[available_columns]` keeps the row count and takes, name by name, the columns at the listed positions |
| ProxySelVoted.PositionsOfSingle | import_proxy_sel_account_voted.py:88-89 | a label carried once is taken at its first (only) position, and an absent one not at all |
| ProxySelVoted.SelectionWithoutRepeats | import_proxy_sel_account_voted.py:88-89 | without a repeated label the selection is the first-column projection the other proxy_sel script uses |
| ProxySelVoted.RepeatKept | import_proxy_sel_account_voted.py:88-89 | a repeated expected label stays repeated in the selected frame |
| ProxySelVoted.CleanedBy | import_proxy_sel_account_voted.py:93-116 | a repeated numeric or hash label makes the cleaning raise (TypeError of `pd.to_numeric`, AttributeError of `.str`); otherwise the selection is cleaned as in the other proxy_sel script |
| ProxySelVoted.CleanedByMeaning | import_proxy_sel_account_voted.py:93-116 | without a repeated label the cleaning is that of the first-column projection; a repeated integer label or a repeated `account_hash_key` always raises, whatever the rows |
| ProxySelVoted.CollisionRaises | import_proxy_sel_account_voted.py:70-116 | a rename collision on any expected column but `account_type` makes `validate_and_clean_data` raise |
| ProxySelVoted.ValidateAndClean | import_proxy_sel_account_voted.py:57-119 | `validate_and_clean_data` with its mapping loops: the cleaning of the fuzzily renamed frame, `None` when it raises, and whether the selected labels repeat |
| ProxySelVoted.ImportParquetToAccountVoted | import_proxy_sel_account_voted.py:121-202 | a missing or unreadable file reports 0 and leaves `account_voted` alone; without a repeated label the cleaned rows replace it in committed batches; with one, 0 is reported and the table is emptied exactly when the cleaning survives with rows and the DELETE commits, since the first row then raises in `pd.isna` |
| ProxySelVoted.ExitStatus | import_proxy_sel_account_voted.py:204-235 | `main` exits 0 exactly when it connects and the import reports a positive count |
| Outreach.MinusOneText | import_outreach.py:89 | the text of an integer is `-1` exactly for -1 |
| Outreach.SafeIntOfInteger | import_outreach.py:87-103 | `safe_int`/`safe_bigint` read back the text of an integer, except `-1`, which is `None` |
| Outreach.IntegerReads | import_outreach.py:92 | the text of an integer is not blank, has no surrounding space and `int(float(...))` reads it back |
| Outreach.SafeTinyintOfInteger | import_outreach.py:105-113 | `safe_tinyint` clamps an integer to 0..255, leaving one already in range as it is |
| Outreach.BlankIsNone | import_outreach.py:87-113 | missing or all-whitespace text gives `None` in every integer converter |
| Outreach.ProcessRowData | import_outreach.py:115-130 | a converted row keeps its `account_hash_key` text, empty when the column is absent |
| Outreach.Outcome | import_outreach.py:181-200 | a row is accepted exactly when it has no data fault and fits the unique key, and meets an error other than an IntegrityError exactly when its data has such a fault |
| Outreach.NullNeverCollides | import_outreach.py:58 | a row with a NULL key part never violates the unique key, whatever the table holds |
| Outreach.UniqueSnoc | import_outreach.py:58 | adding a row that collides with none keeps the key unique |
| Outreach.InsertManyMeaning | import_outreach.py:181-186 | `executemany` stores the batch exactly when no row has a data fault and the whole batch keeps the key unique, and then appends the batch |
| Outreach.FaultFreeFailsOnKey | import_outreach.py:186-200 | without data faults, a batch that `executemany` refuses fails on a duplicate entry, so it goes to the recovery loop rather than raising |
| Outreach.OneByOneMeaning | import_outreach.py:189-197 | the recovery loop keeps the key unique and every earlier row; it raises exactly when some row has an error other than an IntegrityError, and otherwise each row is inserted or counted as a duplicate |
| Outreach.OneByOneAfterRaise | import_outreach.py:189-197 | once the recovery loop raises, no later row of the batch is tried |
| Outreach.ManyAgreesWithOneByOne | import_outreach.py:181-197 | when the batch insert succeeds, row-by-row insertion would give the same table and no duplicates |
| Outreach.FlushMeaning | import_outreach.py:181-200 | a batch with recovery keeps the key unique and the earlier rows; it never raises without data faults and always raises on an error other than an IntegrityError; when it does not raise, every row is inserted or a duplicate |
| Outreach.FlushAllMeaning | import_outreach.py:166-219 | over all batches the key stays unique and earlier rows stay; fault-free rows never raise, a non-IntegrityError fault always does, and without a raise inserted plus duplicates equals the rows sent |
| Outreach.FlushAllAfterRaise | import_outreach.py:181-232 | once a batch raises, no later batch is executed |
| Outreach.NullBatchHasNoDuplicates | import_outreach.py:181-197 | a fault-free batch whose rows all have a NULL key part is stored whole, with no duplicates |
| Outreach.ExecuteEach | import_outreach.py:191-197 | the recovery loop inserts row by row, counts each IntegrityError as a duplicate and stops at any other error |
| Outreach.ExecuteBatch | import_outreach.py:181-200 | one batch: `executemany`; after a duplicate-entry rollback the row-by-row recovery; any other error raised again |
| Outreach.FlushStep | import_outreach.py:181-200 | flushing one more batch extends the flushed batches by it |
| Outreach.KeptAfterRaise | import_outreach.py:170-234 | once a row raises no further row is read |
| Outreach.KeptPrefix | import_outreach.py:170-178 | the records kept from the first rows begin the records kept from the whole file |
| Outreach.KeptHaveHash | import_outreach.py:174-175 | rows with an empty `account_hash_key` are skipped |
| Outreach.CommittedRows | import_outreach.py:177-219 | the records sent are a prefix of the records kept |
| Outreach.ImportCsvToDatabase | import_outreach.py:132-237 | a missing file or no connection is a failure that changes nothing; otherwise the result is true exactly when no row, no batch and the reader raised, and the table and duplicates are the batches sent, executed in order until one raises; a reader that raises after its last row fails the run with only the full batches sent; the count is the rows kept when no batch raised |
| Outreach.AddRecord | import_outreach.py:177-200 | one kept row joins the batch, which is flushed when the count reaches a multiple of 1000; a flush that raises is reported |
| Outreach.FullPrefixFits | import_outreach.py:177-219 | full batches that fit in the kept records fit in the part of them that fills whole batches |
| Outreach.SlicesAfterFull | import_outreach.py:177-219 | slicing records that begin with full batches yields those batches first |
| Outreach.SentBeforeRaise | import_outreach.py:177-232 | when a batch raises mid-file, executing every batch the file would send ends exactly where the import stopped |
| Outreach.RaisedCommits | import_outreach.py:177-234 | when a row raises, the full batches already flushed are what is committed |
| Outreach.FlushRemainder | import_outreach.py:203-219 | after the last row the pending batch goes out, so the table, the duplicate count and the raise are those of flushing every committed batch in order |
| Outreach.FinalCommits | import_outreach.py:204-219 | at the end, the full batches and the final partial one are what is committed |
| Outreach.ImportedCount | import_outreach.py:221 | the rows added are the rows kept minus the duplicates when no batch raises, as the script reports; the key stays unique; fault-free records never raise |
| Outreach.CopyFromProxyDatabase | import_outreach.py:239-321 | without both connections nothing changes; otherwise the source rows are sent in batches of 1000 with duplicate recovery until one raises, and the result is true exactly when none raised |
| Outreach.Targets | import_outreach.py:337-347 | `--database` names one target, or `all` gives all three |
| Outreach.FromCsv | import_outreach.py:368-379 | rows come from the CSV file exactly when `--copy-from-proxy` is absent and `--csv-file` is given; otherwise they are copied from `proxy` |
| Outreach.AllSucceeded | import_outreach.py:387-390 | the success count equals the target count exactly when every target's creation (when asked) and load succeeded |
| Outreach.RunTargets | import_outreach.py:353-379 | the success count is the number of targets whose table creation, when asked, and then load succeeded, out of the number of targets |
| CsvTableImport.KindsBy | import_csv.py:147-174 | one conversion per column, chosen from its name by the script's own table; import_csv_update_20250817.py and import_sds_account_voted.py pass theirs |
| CsvTableImport.CreateTableSchema | import_csv.py:60-102 | the CREATE TABLE definitions: `id`, each column with its type, then `created_at`; import_csv_update_20250817.py passes its own column types |
| CsvTableImport.ColumnDefinitions | import_csv.py:71-93 | one `name TYPE` definition per column, in order, with the type chosen from the name |
| CsvTableImport.TableDefinitions | import_csv.py:96-102 | the CREATE TABLE body is the auto-increment `id`, the column definitions in order, then `created_at` |
| CsvTableImport.ConvertPrefixMeaning | import_csv.py:147-174 | a row is skipped exactly when one of its padded fields raises while converting; otherwise cell `k` is field `k` converted |
| CsvTableImport.ConvertRowMeaning | import_csv.py:141-174 | the converted row has one cell per column, each the conversion of the padded field, and exists exactly when no field raises |
| CsvTableImport.PrefixRaiseStays | import_csv.py:147-174 | once a field raises, the whole row is skipped |
| CsvTableImport.ProcessRow | import_csv.py:141-174 | the padding-and-conversion loop computes the converted row |
| CsvTableImport.EmptyIsNull | import_csv.py:148-149 | an empty field is NULL in every column |
| CsvTableImport.IntegerCells | import_csv.py:153-170 | the text of an integer reads back as that integer in INT and TINYINT columns |
| CsvTableImport.InfinityRaises | import_csv.py:153-170 | `int(float('inf'))` raises OverflowError, which the converters do not catch, so the row is skipped |
| CsvTableImport.UnparsableCells | import_csv.py:153-170 | text that is not a number becomes NULL in INT and DECIMAL columns and 0 in prediction columns |
| CsvTableImport.ConvertedBound | import_csv.py:139-188 | no more rows are converted than were read, and all are when none raises |
| CsvTableImport.GoodPrefix | import_csv.py:178-181 | the accepted prefix: every tuple before it fits and the one at its end does not |
| CsvTableImport.GoodPrefixUnique | import_csv.py:178-181 | the accepted prefix is determined by the first tuple the server refuses |
| CsvTableImport.GoodPrefixSnoc | import_csv.py:176-181 | one more tuple extends the accepted prefix only if all before it were accepted and it fits |
| CsvTableImport.CommittedLength | import_csv.py:178-183 | the committed rows are the accepted prefix rounded down to a multiple of 1000 |
| CsvTableImport.AppendTracks | import_csv.py:176-188 | adding a converted row keeps the table, pending batch and count in step with the rows converted so far |
| CsvTableImport.PendingKept | import_csv.py:178-188 | a batch that does not commit leaves the committed length where it was |
| CsvTableImport.AcceptedThrough | import_csv.py:178-183 | a batch that commits means every row converted so far was accepted |
| CsvTableImport.LoadRow | import_csv.py:176-188 | one converted row joins the batch, which is inserted and committed once it holds 1000 rows that all fit; a failing insert keeps the batch for the next row |
| CsvTableImport.ImportCsvToTable | import_csv.py:113-204 | a missing or empty file imports nothing; otherwise, when every converted row fits and the reader ends cleanly the table gains them all and the count is their number, and when one does not fit or the reader raises the table keeps only the whole batches before it and the count reported is 0 |
| CsvTableImport.FlushRemainder | import_csv.py:190-194 | the remainder is inserted when all rows fit, and otherwise the final insert raises and the count is 0 |
| CsvTableImport.ConvertedHas | import_csv.py:139-176 | every row that converts is among the rows sent |
| CsvTableImport.RejectedCutsPrefix | import_csv.py:178-194 | a refused tuple among the rows sent means not all are accepted |
| CsvTableImport.CleanImportCount | import_csv.py:139-197 | when every row converts and fits, every row is accepted |
| ImportCsv.KindMatchesType | import_csv.py:60-93 | each conversion feeds its column's declared type: integers INT, prediction TINYINT, floats DECIMAL, text VARCHAR |
| ImportCsv.UnvotedKinds | import_csv.py:220-223 | how each of the eleven fields of the 2025-08-16 files is read |
| ImportCsv.SchemasDiffer | import_csv.py:220-228 | the unvoted and voted schemas differ only in the model's score and prediction columns, which are read alike |
| ImportCsvUpdate.KindMatchesType | import_csv_update_20250817.py:33-58 | only `account_hash_key` is NOT NULL, and each conversion feeds its column's declared type |
| ImportCsvUpdate.UnvotedKinds | import_csv_update_20250817.py:150-153 | how each of the nine fields of the unvoted file is read |
| ImportCsvUpdate.VotedKinds | import_csv_update_20250817.py:154-157 | the voted file's fields are read the same way |
| ImportCsvUpdate.BlankHashStopsImport | import_csv_update_20250817.py:41-135 | a row with a blank hash becomes a NULL the NOT NULL column refuses, so not every row is accepted |
| ImportSdsVoted.VotedKinds | import_sds_account_voted.py:58-62 | how each of the nine fields is read |
| ImportSdsVoted.NormalisedRow | import_sds_account_voted.py:85-118 | a converted row has nine cells; a non-numeric prediction is 0 and a non-numeric `Target_encoded` NULL |
| ImportSdsVoted.FallbackCell | import_sds_account_voted.py:96-116 | an unparsable field in an integer column falls back to 0 or NULL by the column |
| ImportSdsVoted.MainGate | import_sds_account_voted.py:159-191 | the import goes ahead exactly when connected, the table exists, the count query does not raise and the table is empty or the answer is `y` or `Y`; a refused prompt, and only it, exits with status 0 |
| ProposalsComprehensive.ParseDateMeaning | import_proposals_predictions_bulk_comprehensive.py:65-86 | blank or `null` gives no date; otherwise the stripped text is tried against the six formats in order |
| ProposalsComprehensive.ParseDateIgnoresBlanks | import_proposals_predictions_bulk_comprehensive.py:67-81 | a value and its stripped text parse to the same date |
| ProposalsComprehensive.MonthFirstWins | import_proposals_predictions_bulk_comprehensive.py:70-83 | an ambiguous slash date is read month first, since `%m/%d/%Y` is tried before `%d/%m/%Y` |
| ProposalsComprehensive.FilteredColumns | import_proposals_predictions_bulk_comprehensive.py:265 | filtering never adds columns |
| ProposalsComprehensive.FilteredColumnsMeaning | import_proposals_predictions_bulk_comprehensive.py:265 | a column survives exactly when it is in the header and its lower-case name does not start with `merge_` |
| ProposalsComprehensive.InfiniteKeyFailsRow | import_proposals_predictions_bulk_comprehensive.py:45-241 | an infinite key raises OverflowError, which `safe_int` does not catch, so the row fails |
| ProposalsComprehensive.ImportFile | import_proposals_predictions_bulk_comprehensive.py:243-354 | no file, no connection or no header is a failure with nothing inserted; otherwise the result and table are the capped batch loop's as `Ended` finishes it, with the error count |
| ProposalsComprehensive.Ended | import_proposals_predictions_bulk_comprehensive.py:310-354 | a reader that raises after its last row, unless the loop already stopped, fails the run without the final insert; otherwise the final batch is inserted, and the table holds the committed rows plus the batch exactly on success |
| ProposalsComprehensive.ImportCsvToDatabase | import_proposals_predictions_bulk_comprehensive.py:243-354 | the same, with this script's row conversion |
| ProposalsComprehensive.ImportedRows | import_proposals_predictions_bulk_comprehensive.py:305-336 | whatever the reader does after its last row, the table holds at most the good rows, all of them when the loop was not stopped and the run succeeded, and the loop stops after at most 101 errors |
| ProposalsComprehensive.CleanImport | import_proposals_predictions_bulk_comprehensive.py:305-348 | when every row converts, the reader ends cleanly and every insert succeeds, the import succeeds with every row and no errors |
| ProposalsComprehensive.RunMapping | import_proposals_predictions_bulk_comprehensive.py:356-397 | the success count is the mappings whose file exists, table is created and import succeeds; the exit status is 0 exactly when all four do |
| ProposalsComprehensive.FilterAll | import_proposals_predictions_bulk_comprehensive.py:392-397 | every mapping succeeded exactly when the success count equals the number of files |
| ProposalsBulk.MasterKeyMeaning | import_proposals_predictions_bulk.py:193-194 | a blank key is None; otherwise the row fails unless `float` parses a finite number, `-1` is None, and any other key is `int` of the float |
| ProposalsBulk.MasterKeyOfInteger | import_proposals_predictions_bulk.py:193-194 | the text of an integer reads back as that integer, except -1, which is None |
| ProposalsBulk.UnreadableKeyFailsRow | import_proposals_predictions_bulk.py:193-259 | an unreadable key fails the row here, where the comprehensive script's `safe_int` would catch it |
| ProposalsBulk.ClipMeaning | import_proposals_predictions_bulk.py:195-196 | a blank value is None and any other is its first 500 characters |
| ProposalsBulk.ClipShort | import_proposals_predictions_bulk.py:195-196 | a clipped value never exceeds the width |
| ProposalsBulk.Flag | import_proposals_predictions_bulk.py:200-214 | a flag is 0 or 1 |
| ProposalsBulk.FlagIgnoresCase | import_proposals_predictions_bulk.py:200-208 | a flag does not depend on the case of its text |
| ProposalsBulk.ProcessRowFails | import_proposals_predictions_bulk.py:191-247 | a row fails exactly when a stripped field is left unfilled by a short line or one of its master keys fails, and a missing key column gives no key |
| ProposalsBulk.WithKeysFails | import_proposals_predictions_bulk.py:191-247 | the row exists exactly when every stripped field is filled and both keys convert, and carries the converted proposal key |
| ProposalsBulk.ShortLineFails | import_proposals_predictions_bulk.py:191-256 | a field a short line leaves unfilled in a stripped column fails the row with an error, though `row.get` reads it as None |
| ProposalsBulk.UnfilledDateIsNone | import_proposals_predictions_bulk.py:233 | a missing or unfilled meeting date gives no date |
| ProposalsBulk.BuiltColumns | import_proposals_predictions_bulk.py:195-214 | issuer and category fit their 500-character columns, both flags are 0 or 1, and a missing category is NULL |
| ProposalsBulk.BuiltFields | import_proposals_predictions_bulk.py:195-214 | issuer and category are the clipped texts and the flags are read from their columns |
| ProposalsBulk.ImportCsvToDatabase | import_proposals_predictions_bulk.py:147-285 | no file, no connection or no header is a failure with nothing inserted; otherwise the result and table are the capped batch loop's with this script's conversion, as `ProposalsComprehensive.Ended` finishes it for a reader that ends cleanly or raises |
| ProposalsPredictions.ParseDate | import_proposals_predictions.py:13-20 | blank text gives `None`; otherwise the ISO text of the `%m/%d/%Y` date when `strptime` accepts the untrimmed text, `None` when it raises |
| ProposalsPredictions.ParsedDateIsIso | import_proposals_predictions.py:13-20 | a parsed date comes back as ten-character `YYYY-MM-DD` text whose fields read back as the date |
| ProposalsPredictions.DateNotTrimmed | import_proposals_predictions.py:15-18 | text with surrounding spaces is not stripped before `strptime`, so a date that parses only once stripped gives `None` |
| ProposalsPredictions.SafeBool | import_proposals_predictions.py:141-150 | blank gives `None`; `TRUE`, `1`, `YES`, `Y` give true and `FALSE`, `0`, `NO`, `N` false, after upper-casing and stripping; anything else `None` |
| ProposalsPredictions.WordFlag | import_proposals_predictions.py:144-150 | true exactly for the four true words, false exactly for the four false words |
| ProposalsPredictions.SafeBoolIgnoresCaseAndBlanks | import_proposals_predictions.py:141-150 | the flag does not depend on case or surrounding whitespace |
| ProposalsPredictions.DirectorName | import_proposals_predictions.py:167 | the director name is kept unless it is absent, empty or `-1` |
| ProposalsPredictions.IntConversions | import_proposals_predictions.py:155-182 | the `safe_int` conversion of each integer column, in order |
| ProposalsPredictions.AllValues | import_proposals_predictions.py:132-139 | the integer values, or a raise exactly when one conversion raises (`int(float('inf'))` is an uncaught OverflowError) |
| ProposalsPredictions.ProcessRowData | import_proposals_predictions.py:152-205 | `process_row_data` raises exactly when an integer conversion does, and otherwise builds the record from the converted columns |
| ProposalsPredictions.ConvertedColumns | import_proposals_predictions.py:152-205 | the record's keys, director number and shares are the integer conversions; its director name and flags are `DirectorName` and `SafeBool` of their columns |
| ProposalsPredictions.CategoryFromCapitalisedHeader | import_proposals_predictions.py:168 | the category is read from the `Category` header, so a file without it stores no category |
| ProposalsPredictions.ImportRows | import_proposals_predictions.py:262-291 | the rows committed are the leading groups that succeeded, of the rows read before the first raise; the run succeeds exactly when no row raises, the reader ends cleanly and every group sent commits |
| ProposalsPredictions.AddValue | import_proposals_predictions.py:270-279 | one row joins the batch; when the count reaches a multiple of 1000 the batch is sent and committed, or the run fails |
| ProposalsPredictions.PendingStep | import_proposals_predictions.py:270-273 | a row that does not complete a group only joins the pending batch |
| ProposalsPredictions.FailingStep | import_proposals_predictions.py:274-276 | a group whose `executemany` raises ends the run with the earlier groups committed |
| ProposalsPredictions.FullGroup | import_proposals_predictions.py:274-278 | a group that succeeds is committed and the batch starts empty |
| ProposalsPredictions.RaisedExit | import_proposals_predictions.py:292-296 | a row that raises ends the run as a failure with the committed groups kept |
| ProposalsPredictions.FailedExit | import_proposals_predictions.py:292-296 | a failed group ends the run as a failure with the earlier groups kept |
| ProposalsPredictions.Finish | import_proposals_predictions.py:281-291 | the final partial batch is sent; the run succeeds exactly when it commits |
| ProposalsPredictions.CleanRunImportsEverything | import_proposals_predictions.py:262-291 | when every row converts and every group commits, every row is committed, in order |
| ProposalsPredictions.CommittedIsPrefix | import_proposals_predictions.py:262-296 | what is committed is a prefix of the rows, whole groups of 1000 unless it is all of them, and all of them on success |
| ProposalsPredictions.ImportCsvToDatabase | import_proposals_predictions.py:207-299 | no file or no connection is a failure with nothing committed; otherwise the rows are imported as `Imported` states |
| ProposalsPredictions.Targets | import_proposals_predictions.py:303-331 | `all` selects the three databases, a single name selects itself, anything else is refused by the argument parser |
| ProposalsPredictions.RunTargets | import_proposals_predictions.py:337-356 | a target is imported unless its table creation was requested and failed; the success count is the imports that succeeded |
| ProposalsPredictions.FilterMembers | import_proposals_predictions.py:337-356 | a filter keeps exactly the elements that pass, in order |
| ProposalsPredictions.FilterRanked | import_proposals_predictions.py:337-356 | a filter keeps the order of what it keeps |
| PredictionsSds.SlashDateFirst | import_predictions_sds.py:25-46 | a month-first slash date wins over the other two formats |
| PredictionsSds.ParseNumeric | import_predictions_sds.py:48-70 | blank gives None; a value with a signed exponent or a point is read by `float`, any other by `int`; a ValueError gives None |
| PredictionsSds.IntegerTextIsInt | import_predictions_sds.py:48-70 | the text of an integer reads back as that integer |
| PredictionsSds.UnsignedExponentRejected | import_predictions_sds.py:55-67 | an exponent without a sign and without a point goes to `int`, which rejects it |
| PredictionsSds.WordsDisjoint | import_predictions_sds.py:78-81 | no word is both a true word and a false word |
| PredictionsSds.ParseBoolean | import_predictions_sds.py:72-84 | true exactly for a true word, false exactly for a false word, after stripping and upper-casing; None otherwise |
| PredictionsSds.WordOf | import_predictions_sds.py:77-84 | the word test on the stripped, upper-cased text |
| PredictionsSds.ParseBooleanIgnoresCase | import_predictions_sds.py:77 | the case of the text does not matter |
| PredictionsSds.ProcessRow | import_predictions_sds.py:129-179 | a row fails exactly when the header lacks one of the columns it reads |
| PredictionsSds.ProcessedValues | import_predictions_sds.py:129-179 | each value of the tuple is its column's conversion: numbers, texts with empty as NULL, dates and flags |
| PredictionsSds.WidthOfRow | import_predictions_sds.py:99-179 | every converted row has 48 values, one per listed column |
| PredictionsSds.StatementBinds | import_predictions_sds.py:181 | with one marker per column every converted row binds |
| PredictionsSds.WrittenStatementNeverBinds | import_predictions_sds.py:99-181 | with the 47 markers written, no row binds |
| PredictionsSds.ImportCsvDataAsWritten | import_predictions_sds.py:86-198 | the row loop as written: rows inserted and errors counted until more than 10 errors |
| PredictionsSds.AsWrittenInsertsNothing | import_predictions_sds.py:99-193 | as written, no row is inserted and the loop stops after 11 errors or at the end of a shorter file |
| PredictionsSds.ImportCsvData | import_predictions_sds.py:86-198 | with one marker per column: the rows inserted are the good attempts before the error cap, and the errors the bad ones |
| PredictionsSds.CleanFileImported | import_predictions_sds.py:127-198 | a file whose rows all have the columns and insert is imported whole, in order |
| PredictionsSds.MissingColumnInsertsNothing | import_predictions_sds.py:129-193 | a header without a read column inserts nothing and stops after 11 rows |
| PredictionsBulk.ParseDate | import_predictions_bulk.py:27-35 | blank gives None; otherwise the stripped text is read as `%m/%d/%Y` |
| PredictionsBulk.DateTrimmed | import_predictions_bulk.py:27-35 | surrounding blanks do not change the date |
| PredictionsBulk.ParseInt | import_predictions_bulk.py:46-53 | exactly `-1` is None; otherwise the value is what `int()` reads |
| PredictionsBulk.PointRejected | import_predictions_bulk.py:46-53 | a value with a point is not an integer, so it is None |
| PredictionsBulk.ParseIntOfInteger | import_predictions_bulk.py:46-53 | the text of an integer reads back as that integer, except -1, which is None |
| PredictionsBulk.ParseBool | import_predictions_bulk.py:55-59 | blank is None; otherwise true exactly when the stripped text upper-cases to `TRUE` |
| PredictionsBulk.UnknownWordIsFalse | import_predictions_bulk.py:55-59 | an unknown word is false here, where the proposals import gives None |
| PredictionsBulk.ParseBoolIgnoresCase | import_predictions_bulk.py:59 | the case of the text does not matter |
| PredictionsBulk.DirectorName | import_predictions_bulk.py:116 | only `-1` is None; any other name, even empty, is kept |
| PredictionsBulk.EmptyNameKept | import_predictions_bulk.py:116 | an empty name is kept here, where the proposals import gives None |
| PredictionsBulk.ProcessRow | import_predictions_bulk.py:101-151 | a row is skipped exactly when the header lacks one of its columns |
| PredictionsBulk.WidthOfRow | import_predictions_bulk.py:73-151 | every converted row has 48 values |
| PredictionsBulk.CollectRows | import_predictions_bulk.py:98-158 | the collected tuples are the rows that convert, in file order, and with the skipped ones they account for every row |
| PredictionsBulk.Replace | import_predictions_bulk.py:61-188 | the table holds the collected tuples when the DELETE and insert commit, and its old rows when they roll back |
| PredictionsBulk.CollectedWidth | import_predictions_bulk.py:73-158 | every collected tuple has 48 values |
| PredictionsBulk.ImportCsvDataAsWritten | import_predictions_bulk.py:61-188 | the import with the 47 markers written |
| PredictionsBulk.AsWrittenStoresNothing | import_predictions_bulk.py:73-185 | as written, any non-empty file is rolled back and the table keeps its old rows |
| PredictionsBulk.ImportCsvData | import_predictions_bulk.py:61-188 | with one marker per column, the collected tuples replace the table when the transaction commits |
| PredictionsBulk.ReplacedByGoodRows | import_predictions_bulk.py:161-185 | with one marker per column, the good rows replace the table exactly when the insert succeeds |
| PredictionsNamed.ProposalKey | import_predictions_named.py:78 | empty gives None; otherwise the key is what `int()` reads, and the row fails when it reads nothing |
| PredictionsNamed.DirectorKey | import_predictions_named.py:79-91 | empty and `-1` give None; otherwise as the proposal key |
| PredictionsNamed.KeysOfInteger | import_predictions_named.py:78-91 | the text of an integer reads back as that integer, except -1 for the director keys |
| PredictionsNamed.Flag | import_predictions_named.py:120-121 | true exactly for `TRUE` and false exactly for `FALSE` in any case, None otherwise |
| PredictionsNamed.PaddedFlagUnknown | import_predictions_named.py:120-121 | a flag with a leading blank is None, since the text is not stripped |
| PredictionsNamed.ParseDate | import_predictions_named.py:12-19 | blank gives None; otherwise the unstripped text must read as `%m/%d/%Y` |
| PredictionsNamed.ProcessRow | import_predictions_named.py:77-124 | a row that builds has every column and every float column reads as a number |
| PredictionsNamed.ProcessRowFails | import_predictions_named.py:77-124 | a row builds exactly when it has every column, every float column reads and the three integer keys read |
| PredictionsNamed.ImportCsvToMysql | import_predictions_named.py:21-134 | the first row that raises or fails to insert ends the script before the commit, leaving the table as it was; otherwise every row is appended |
| PredictionsNamed.AllOrNothing | import_predictions_named.py:75-134 | the rows are committed exactly when every row builds and inserts, and then they are all the rows, in order |
| CsvDirect.EscapeOnePass | import_csv_direct.py:82 | the two replacements together double every quote and every backslash in one pass |
| CsvDirect.ReadEscapedStep | import_csv_direct.py:82-83 | a server reading the literal turns each escaped character back into itself |
| CsvDirect.ReadEscapedBody | import_csv_direct.py:82-83 | reading the escaped body gives back the original text |
| CsvDirect.QuotedRoundTrip | import_csv_direct.py:81-83 | the quoted, escaped literal of a string column reads back as the stripped field |
| CsvDirect.RenderPrefixMeaning | import_csv_direct.py:52-83 | a prefix of the row renders exactly when each of its fields does, and literal `k` is field `k`'s |
| CsvDirect.RenderRowValues | import_csv_direct.py:50-83 | the nine-column loop computes the row's literals |
| CsvDirect.RenderTuple | import_csv_direct.py:50-86 | one row rendered as a parenthesised tuple of its literals |
| CsvDirect.RenderFields | import_csv_direct.py:52-83 | the loop over the first `m` fields renders them, stopping at the first that raises |
| CsvDirect.NoneStays | import_csv_direct.py:52-83 | once a field raises, the whole row raises |
| CsvDirect.RowMeaning | import_csv_direct.py:52-83 | the row renders exactly when all nine fields do, and then into nine literals, one per field |
| CsvDirect.NullCells | import_csv_direct.py:58-62 | an empty or `null` field is NULL, except the prediction column, which is 0 |
| CsvDirect.IntegerCells | import_csv_direct.py:63-78 | the text of an integer is rendered as itself in the integer and prediction columns |
| CsvDirect.IntStringNotNull | import_csv_direct.py:58 | the text of an integer is never taken for `null` |
| CsvDirect.UnparsableCells | import_csv_direct.py:63-80 | text that is not a number is NULL in the integer and decimal columns and 0 in the prediction column |
| CsvDirect.StringCells | import_csv_direct.py:81-83 | a string column always renders, to a literal that reads back as the stripped field |
| CsvDirect.InfinityRaises | import_csv_direct.py:63-80 | `int(float('inf'))` raises OverflowError, which escapes the cell handlers and ends the import |
| CsvDirect.SlicesCount | import_csv_direct.py:89-106 | the tuples go out in one statement per full batch and one more for a remainder |
| CsvDirect.ExpectedMeaning | import_csv_direct.py:30-115 | the import sends a prefix of the batches, all but the last of them succeeded, and the count is the tuples in the statements that succeeded; it stops early only at a failing statement or a raise |
| CsvDirect.ExpectedNumbers | import_csv_direct.py:89-115 | the same promise stated on the number of tuples alone |
| CsvDirect.CleanImportCount | import_csv_direct.py:89-111 | when every statement succeeds, every tuple is counted and every batch sent |
| CsvDirect.ExpectedFailed | import_csv_direct.py:93-99 | a failing full batch ends the import with the tuples of the batches before it |
| CsvDirect.ExpectedRaised | import_csv_direct.py:113-115 | a raise returns the tuples of the full batches already sent |
| CsvDirect.ExpectedFinished | import_csv_direct.py:101-111 | at the end, the remainder is sent and counted when it succeeds |
| CsvDirect.BatchesAreSlices | import_csv_direct.py:87-106 | the statements' batches are the 1000-tuple slices of the tuples |
| CsvDirect.AddTuple | import_csv_direct.py:85-99 | one tuple joins the batch; a full batch is sent, and the import stops when it fails |
| CsvDirect.CommitStep | import_csv_direct.py:90-96 | a full batch that succeeds is counted and cleared |
| CsvDirect.FailStep | import_csv_direct.py:97-99 | a full batch that fails ends the import with the count so far |
| CsvDirect.RaisedExit | import_csv_direct.py:113-115 | a raise returns the count so far |
| CsvDirect.SendRemainder | import_csv_direct.py:101-108 | the remainder, if any, is sent after the last row and counted when it succeeds |
| CsvDirect.EndOfFile | import_csv_direct.py:101-115 | after the last row a reader that raises drops the pending batch, as a raising row does; otherwise the remainder is sent |
| CsvDirect.RemainderSent | import_csv_direct.py:101-108 | sending the remainder completes the import's promise |
| CsvDirect.ImportCsvFile | import_csv_direct.py:30-115 | a missing or empty file imports nothing; otherwise the rows after the header are imported as `ImportRows` states |
| CsvDirect.ImportRows | import_csv_direct.py:48-115 | the count and the statements sent are what the batching promises for the tuples rendered before the first raising row, a reader that raises after its last row counting as such a row |
| ExcelProposals.CleanPercentage | import_excel_proposals.py:22-36 | a missing cell gives None; a string keeps only its digits, points and minus signs, with an empty or unreadable remainder giving None |
| ExcelProposals.KeepMeaning | import_excel_proposals.py:28 | the kept text holds only digits, points and minus signs, and text made only of them is kept whole |
| ExcelProposals.KeepConcat | import_excel_proposals.py:28 | filtering a concatenation filters each part |
| ExcelProposals.PercentOfInteger | import_excel_proposals.py:22-36 | a whole percentage such as `45%` reads as its number |
| ExcelProposals.KeepIntegerPercent | import_excel_proposals.py:28 | the percent sign is dropped and the digits kept |
| ExcelProposals.SafeIntConvert | import_excel_proposals.py:52-59 | a missing cell gives None, an infinite value raises, and any other value that converts is `int(float(v))` |
| ExcelProposals.SafeIntOfInteger | import_excel_proposals.py:52-59 | an integer, as text or as a number, converts to itself |
| ExcelProposals.IntOfIntegerCell | import_excel_proposals.py:57 | the text of an integer reads back as that integer |
| ExcelProposals.InfinityFailsRow | import_excel_proposals.py:52-59 | an infinite number raises OverflowError, which is not caught, while unreadable text gives None |
| ExcelProposals.SafeBoolConvert | import_excel_proposals.py:70-81 | a boolean passes through; a string is true exactly for a yes word in any case, unstripped; a number is `bool(int(v))` |
| ExcelProposals.SafeBoolIgnoresCase | import_excel_proposals.py:77 | the case of a string does not matter |
| ExcelProposals.HalfIsFalse | import_excel_proposals.py:79 | 0.5 is false, since `int` truncates it to 0 |
| ExcelProposals.ProcessRow | import_excel_proposals.py:146-197 | a row builds exactly when it has every column and no integer cell raises |
| ExcelProposals.InsertRows | import_excel_proposals.py:144-209 | the rows kept are the good attempts in order; every row counts once as a success or a failure |
| ExcelProposals.ImportExcelToMysql | import_excel_proposals.py:83-226 | a sheet that cannot be read or a failed connection returns False with nothing inserted; otherwise the table gains the inserted rows exactly when the commit succeeds |
| ExcelProposals.CleanSheet | import_excel_proposals.py:144-211 | a sheet whose rows all build and insert is inserted whole, in order, with no failures |
| PreprocessCsv.OptimizeRow | preprocess_csv_for_optimization.py:67-74 | a data row loses its first two fields and is padded with empty fields or truncated to the schema's length |
| PreprocessCsv.Preprocess | preprocess_csv_for_optimization.py:13-92 | an unknown table type raises ValueError; a missing input fails with no output; an empty input fails after creating an empty output; otherwise the output is the schema header followed by every data row read, reshaped, and the count is those rows; the result is True exactly when the reader does not raise, and the rows written before a raise stay |
| PreprocessCsv.ReshapeExact | preprocess_csv_for_optimization.py:67-74 | a row two fields longer than the schema is its fields after the first two |
| PreprocessCsv.ReshapeLong | preprocess_csv_for_optimization.py:67-74 | a longer row keeps exactly the schema's length of fields after the first two |
| PreprocessCsv.ReshapedRowHasSchemaLength | preprocess_csv_for_optimization.py:67-76 | a reshaped row never draws a row-length error from the format validator |
| VerifyCsv.ExpectedColumns | verify_csv_format.py:28-82 | a schema exists exactly for the table types `unvoted` and `voted` |
| VerifyCsv.EmptyCellRule | verify_csv_format.py:42-64 | an empty cell is rejected exactly in the hash, key, rank, `Target_encoded` and account-type columns |
| VerifyCsv.IntegerIsFloat | verify_csv_format.py:56-64 | the text of an integer passes the float check |
| VerifyCsv.IntegerKeyRule | verify_csv_format.py:44-53 | an integer passes a digit-only column exactly when it is not negative |
| VerifyCsv.DigitColumnRejects | verify_csv_format.py:44-53 | any character that is not a digit fails a digit-only column |
| VerifyCsv.SchemasDiffer | verify_csv_format.py:28-39 | the two schemas have nine columns and differ only in the score and prediction columns |
| VerifyCsv.CleanHeader | verify_csv_format.py:106 | each header name is stripped and loses every byte-order mark |
| VerifyCsv.CleanCellOfMarked | verify_csv_format.py:106 | a leading byte-order mark and trailing blanks are removed from a name |
| VerifyCsv.HeaderAccepted | verify_csv_format.py:112-137 | the header draws no error exactly when it has the schema's length, every expected name and neither redundant name |
| VerifyCsv.ExtraOnlyWarns | verify_csv_format.py:120-128 | an extra column gives a warning and never an error of its own |
| VerifyCsv.ElementsBound | verify_csv_format.py:120-121 | the set of names is no larger than the header, and as large when the names are distinct |
| VerifyCsv.ExtraImpliesInvalid | verify_csv_format.py:112-128 | an extra column always comes with an error, a length mismatch or a missing column |
| VerifyCsv.SchemasDistinct | verify_csv_format.py:28-39 | no schema lists a column twice |
| VerifyCsv.ValueErrorsEmpty | verify_csv_format.py:156-164 | a full-length row draws no value error exactly when every value passes its column's check |
| VerifyCsv.ValueErrorsComplete | verify_csv_format.py:156-164 | every failing value is reported, with its row, column and text |
| VerifyCsv.ValueErrorsSound | verify_csv_format.py:156-164 | every reported value error names a value that fails its column's check |
| VerifyCsv.RowErrorsEmpty | verify_csv_format.py:151-167 | a row draws no error exactly when it is valid |
| VerifyCsv.CountValid | verify_csv_format.py:166-167 | the valid rows never outnumber the rows checked |
| VerifyCsv.SampleClean | verify_csv_format.py:143-167 | the sample draws no error exactly when every sampled row is valid, which is exactly when all are counted valid |
| VerifyCsv.SampleErrorsBound | verify_csv_format.py:143-167 | there are at least as many row errors as invalid sampled rows |
| VerifyCsv.CappedShape | verify_csv_format.py:169-175 | at most ten row errors are reported as they are, followed by a count of the rest |
| VerifyCsv.ValidateCsvFormat | verify_csv_format.py:14-184 | an unknown table type, a missing file, an empty file and an unreadable header line each give one error and an invalid verdict; otherwise the results report the header and the sampled rows, with no more valid rows than checked |
| VerifyCsv.CheckFile | verify_csv_format.py:94-182 | the results of a non-empty file report its cleaned header and its data rows; a reader that raises within the sample replaces the row errors by a read error and makes the file invalid |
| VerifyCsv.ReportRowErrors | verify_csv_format.py:169-178 | the capped row errors are appended, and more than five make the file invalid |
| VerifyCsv.CheckHeader | verify_csv_format.py:112-137 | the verdict, errors and warnings after the header checks |
| VerifyCsv.SampleSnoc | verify_csv_format.py:143-167 | one more sampled row adds its errors and, when valid, one to the count |
| VerifyCsv.CheckRows | verify_csv_format.py:139-167 | the row loop checks the first 100 data rows and counts one more row when the file has it; it raises exactly when it asks a broken reader for a row past the last |
| VerifyCsv.CheckValues | verify_csv_format.py:157-164 | the value loop reports every failing value and says whether the row is valid |
| VerifyCsv.CleanSamplePasses | verify_csv_format.py:139-178 | a clean header and a clean sample, read without a raise, give a valid file with no errors and every sampled row valid |
| VerifyCsv.ManyBadRowsFail | verify_csv_format.py:169-178 | more than five invalid sampled rows make the file invalid |
| VerifyCsv.ReadErrorFails | verify_csv_format.py:139-182 | a reader that raises within the first hundred data rows makes the file invalid with a read error and the rows counted so far; one that raises later changes nothing |
| SqlDump.MatchValues | docker/optimize_sql_dumps.py:32 | the captured values are not empty and hold no line break |
| SqlDump.MatchInsert | docker/optimize_sql_dumps.py:32-42 | a captured table name has no backtick and is not empty, and the values are not empty and hold no line break |
| SqlDump.MatchInsertComplete | docker/optimize_sql_dumps.py:32-42 | every single-row INSERT with such a table name and values is recognised, with that name and those values |
| SqlDump.MatchInsertSound | docker/optimize_sql_dumps.py:32-42 | a recognised line is exactly the INSERT rebuilt from its table name and values |
| SqlDump.ClassifyAll | docker/optimize_sql_dumps.py:36-73 | every input line is classified, as a row of a table or a line kept verbatim |
| SqlDump.NumRowsOfRows | docker/optimize_sql_dumps.py:56-63 | a run of rows of one table counts as that many rows |
| SqlDump.BatchLinesShape | docker/optimize_sql_dumps.py:88-103 | an empty batch writes nothing; otherwise a header and one line per group, each ending in a comma except the last, which ends in a semicolon |
| SqlDump.WriteBatch | docker/optimize_sql_dumps.py:88-103 | the writes of one batch are appended to the output |
| SqlDump.AppendVerbatim | docker/optimize_sql_dumps.py:66-73 | a verbatim line never breaks the batch-size rules of the statements emitted |
| SqlDump.AppendStatement | docker/optimize_sql_dumps.py:49-63 | a statement emitted by the loop keeps every statement within the batch size and splits a run only where it must |
| SqlDump.OptimizeDump | docker/optimize_sql_dumps.py:12-86 | the output is the rendering of what was emitted; expanding the emitted statements gives back every input line in order, as a row or verbatim; no statement exceeds the batch size and a run of one table is split only where a batch is full; the count is the rows converted |
| SqlDump.InsertLine | docker/optimize_sql_dumps.py:44-63 | an INSERT line joins its table's batch, flushing the batch of a different table first and a full batch after |
| SqlDump.SwitchTable | docker/optimize_sql_dumps.py:49-54 | a new table flushes the old table's batch and starts an empty one |
| SqlDump.AddRow | docker/optimize_sql_dumps.py:56-63 | the group joins the batch, which is written when it reaches the batch size |
| SqlDump.OtherLine | docker/optimize_sql_dumps.py:65-73 | any other line flushes the pending batch and is copied as it is |
| SqlDump.Flush | docker/optimize_sql_dumps.py:60-103 | a flush emits the batch as one statement, counts its rows and empties it |
| SqlDump.VerbatimAccounts | docker/optimize_sql_dumps.py:73 | a verbatim line is accounted for in the output |
| SqlDump.FlushAccounts | docker/optimize_sql_dumps.py:88-103 | a flushed batch is accounted for in the output |
| JsValue.Trim | server.js:745 | `s.trim()` is empty exactly when `s` is all whitespace |
| JsValue.TrimStart | server.js:745 | the leading whitespace removed is whitespace and what is left does not start with any |
| JsValue.TrimEnd | server.js:745 | the trailing whitespace removed is whitespace and what is left does not end with any |
| JsValue.DigitRun | server.js:582-585 | `parseInt` reads the longest prefix of digits of its radix |
| JsValue.ParseParam | server.js:582-583 | an absent query parameter never parses (`parseInt(undefined)` is NaN) |
| JsValue.ParseIntOfString | server.js:498-585 | `parseInt` reads back what `String` makes of an integer |
| JsValue.ParseDigits | server.js:582-585 | a run of decimal digits is read whole, as a decimal number |
| JsValue.ParseIntStops | server.js:582-585 | `parseInt(s, 10)` stops at the first character that is not a decimal digit |
| JsValue.DedupMeaning | server.js:746-747 | `Array.from(new Set(xs))` keeps exactly the elements of `xs`, each once, in order of first occurrence |
| JsValue.DedupIdempotent | server.js:746-747 | removing duplicates twice is removing them once |
| JsValue.DedupOfDistinct | server.js:746-747 | a list without duplicates is left as it is |
| Script.ProposalsTable.constructor | public/script.js:428-431 | the proposals table starts unsorted, over the rows it is given |
| Script.AccountsView.constructor | public/script.js:1076-1085 | the accounts view starts with no sort state for either side |
| Script.EscapeHtmlPerChar | public/script.js:1103-1111 | the five chained replacements, `&` first, write exactly one entity per special character and leave every other character as it is; `null`/`undefined` give the empty string |
| Script.EscapedHasNoMarkup | public/script.js:1103-1111 | escaped text holds none of `<`, `>`, `"`, `'`, and every `&` in it starts an entity |
| Script.UnescapeEscaped | public/script.js:1103-1111 | decoding the five entities gives back exactly the escaped text (the browser shows what was escaped) |
| Script.UnescapeEntity | public/script.js:1103-1111 | decoding resumes right after each entity the escape wrote |
| Script.Links | public/script.js:646-653 | the loop writes `n` consecutive page links, the one for the current page marked active |
| Script.RenderProposalsPagination | public/script.js:624-662 | the method's appended list items equal the pagination the shape lemmas describe |
| Script.WindowBounds | public/script.js:643-644 | the page window is the pages within two of the current one that exist, at most five of them |
| Script.PaginationShape | public/script.js:624-662 | nothing is shown when `total_pages <= 1`; otherwise "Previous" leads exactly when `current_page > 1`, "Next" ends exactly when `current_page < total_pages`, and the page links of the window are in between |
| Script.LinksInWindow | public/script.js:643-653 | every page link shown is a page of the window, active exactly when it is the current page |
| Script.WindowShown | public/script.js:643-653 | every page of the window is shown |
| Script.PaginationLinks | public/script.js:643-653 | the links are exactly the window's pages, and the current page is shown active exactly when `1 <= current_page <= total_pages` |
| Script.ToggleMeaning | public/script.js:2378-2384 | a click sorts by the clicked field; the direction flips when it was already the sort field and starts ascending otherwise; two clicks on an already-sorted field restore the state |
| Script.ToggleSide | public/script.js:2366-2384 | only the clicked side's state changes; a side seen for the first time starts as `{field: null, dir: 'asc'}` before the toggle |
| Script.AccountsView.ToggleSort | public/script.js:2366-2384 | `toggleSort(field, sidePrefix)` replaces the per-side sort states by `ToggleSide` of the old ones |
| Script.LexTotal | public/script.js:2328-2333 | string `<` is irreflexive and any two different strings are ordered one way or the other |
| Script.Compare | public/script.js:2316-2339 | the comparator returns -1, 0 or 1, ordering the string keys (`null`/`undefined` as `''`) lower-cased by the given `toLowerCase`, and negating for descending |
| Script.CompareMeaning | public/script.js:2316-2339 | the comparator ties exactly the rows with equal keys and otherwise orders them by key in the chosen direction |
| Script.InOrderTotal | public/script.js:2316-2339 | "not after" under the comparator is a total preorder, as `Array.prototype.sort` requires of a consistent comparator |
| Script.SortArray | public/script.js:2319 | `proposals.sort(comparator)` leaves the array a permutation of its old contents, ordered by the comparator |
| Script.InsertLast | public/script.js:2319 | one insertion pass moves `a[i]` down past every element it must not follow, keeping the multiset |
| Script.ProposalsTable.ApplySortingToProposals | public/script.js:2316-2339 | with no sort field (`null` or `''`) nothing changes; otherwise the rows are reordered, none lost or added, in comparator order |
| Script.ProposalsTable.ToggleProposalSort | public/script.js:2283-2313 | the sort state is toggled as `Toggled` says and the table is then sorted by the new state |
| Script.SortedMeaning | public/script.js:2316-2339 | in a sorted table ascending keys never go down and descending keys never go up |
| Script.StringToInt | public/script.js:3470 | the string side of `p.id == proposalId`: whitespace trimmed, empty is 0, `0x`/`0o`/`0b` read in their base, else an optional sign and decimal digits; anything else is not a number |
| Script.StringToIntOfString | public/script.js:3470 | the text `String` gives an integer reads back as that integer |
| Script.IntStringTrimmed | public/script.js:3470 | the text of an integer starts with `-` or a digit and ends with a digit, so trimming leaves it unchanged |
| Script.IntStringUnprefixed | public/script.js:3470 | the text of an integer carries no base prefix |
| Script.IdMatchesItsText | public/script.js:3470 | loose equality finds a numeric id equal to its own text, whichever side it is on |
| Script.SelectedMeaning | public/script.js:3468-3474 | the rows analysed are the proposals whose `id` loosely equals a truthy `proposalId`, or all proposals |
| Script.TallyTotal | public/script.js:3505-3549 | every valid proposal lands in exactly one of the four cells |
| Script.CountCells | public/script.js:3505-3549 | the counting loop yields the four cells the tally function specifies |
| Script.CalculateRealConfusionMatrix | public/script.js:3464-3572 | the selected proposals, those of them with approval and prediction data, and the four cells over those; all zero when none has data, with the total still reported |
| Script.TallyMeaning | public/script.js:3511-3546 | each cell counts exactly the valid rows whose predicted and actual approval make that cell |
| Script.PredictionCorrectMeaning | public/script.js:3517-3524 | with `prediction_correct` defined, the derived prediction agrees with the outcome exactly when `prediction_correct` is truthy |
| Script.DiagonalCountsCorrect | public/script.js:3511-3546 | when every row carries `prediction_correct`, true positives plus true negatives count the rows marked correct |
| Script.ForPercentageUnused | public/script.js:3477-3535 | every proposal that passes the data filter is decided by method 1 or 2, so the `for_percentage` branch never decides a counted row |
| Script.SanitizeAllowed | public/script.js:1326 | the sanitised key holds only characters of `[a-zA-Z0-9_.:-]` |
| Script.SanitizeKeepsAllowed | public/script.js:1326 | a key made of allowed characters is left as it is |
| Script.SanitizeLength | public/script.js:1326 | the sanitised key is as long in UTF-16 code units as the raw key (each replaced unit becomes one `_`) |
| Script.SanitizeIdempotent | public/script.js:1326 | sanitising twice is sanitising once |
| Script.RowKeyAllowed | public/script.js:1321-1326 | every character of a row key is allowed |
| Script.RowKeyMeaning | public/script.js:1321-1581 | the key is `acc_` and the account id when that is present, else `hash_` and the hash key when that is, else `idx_` and the row index, the value sanitised |
| Script.RowKeysSeparateIds | public/script.js:1321-1326 | rows with different numeric account ids get different keys |
| Script.RankedDistinct | public/script.js:1404 | a header list ordered strictly by first appearance holds each header once |
| Script.AllHeadersRanked | public/script.js:1404 | `new Set([...votedKeys, ...unvotedKeys])` lists each key once, in order of first appearance |
| Script.VotedHeadersRanked | public/script.js:1404-1412 | the voted header row keeps the first-appearance order |
| Script.VotedHeadersMeaning | public/script.js:1401-1412 | the voted header row is every key of either first row not excluded on the voted side, each once, in order of first appearance |
| Script.VotedHeadersMembers | public/script.js:1401-1412 | a key is in the voted header row exactly when it is a key of either first row and not excluded on the voted side |
| Script.UnvotedFilteredMeaning | public/script.js:1410-1414 | the unvoted side keeps exactly the keys it does not exclude, in first-appearance order |
| Script.UnvotedRestMeaning | public/script.js:1415 | without `Target_encoded` the kept headers are still in first-appearance order |
| Script.UnvotedHeadersMeaning | public/script.js:1410-1418 | the unvoted header row is every key not excluded on the unvoted side, each once; `Target_encoded` comes last exactly when it is among them and the others keep first-appearance order |
| Server.CeilDiv | server.js:558 | `Math.ceil(total / limit)`: for a positive limit, the least page count whose pages hold `total` rows |
| Server.ProposalsPaging | server.js:497-500 | `page` and `limit` are the parsed parameters, 1 and 50 when absent, unparsable or zero; `offset` is `(page - 1) * limit` |
| Server.ProposalsPagingOf | server.js:497-500 | a client that sends non-zero page and limit numbers gets exactly that paging |
| Server.PagingDefaults | server.js:498-499 | zero values fall back to page 1 of 50 |
| Server.PagesCoverRows | server.js:498-558 | with a positive limit every row lies on exactly one page, and that page is between 1 and `total_pages` |
| Server.Conditions | server.js:502-522 | one condition per filter given (`prediction_correct`, `approved`, `category`, `search`), in that order |
| Server.WhereClause | server.js:524-526 | the WHERE clause is empty exactly when no filter is given |
| Server.Proposals | server.js:497-563 | the page reply holds the page query's rows, the count, the page and limit used and a page count that covers the total; any failed query, or a negative LIMIT or OFFSET, is a 500 |
| Server.ChooseKey | server.js:582-600 | the proposal key when it parses and is not -1, else the director key on the same test; 400 "Provide ..." when neither parses, 400 "No valid key provided" when what parses is -1 |
| Server.ChooseKeyOf | server.js:582-600 | a client sending rendered keys gets the proposal key, or the director key when the proposal key is -1, or "No valid key" when both are -1 |
| Server.InOutreach | server.js:666-678 | each unvoted row's flag is set exactly when some outreach row has the same composite key |
| Server.KeyColumnText | server.js:666-673 | an integer or null key column renders without `_`, and differently for different values |
| Server.SplitLast | server.js:669-673 | splitting at the last `_` recovers both parts when the last part has none |
| Server.CompositeKeyFaithful | server.js:666-673 | for integer or null key columns two rows share the composite key exactly when their hash keys render alike and both key columns are equal |
| Server.Enrich | server.js:674-677 | `{...row, in_outreach: flag}` sets the flag and keeps every other field |
| Server.CheckedHashKeysMeaning | server.js:637 | the keys the outreach check is sent are exactly the truthy hash keys of the unvoted rows |
| Server.EnrichAll | server.js:672-678 | one enriched row per unvoted row |
| Server.AccountsPaging | server.js:584-633 | the paging is valid exactly when page and limit parse, the limit is not negative and the offset `(page - 1) * limit` is not negative, so page 0 or a negative limit makes the page queries fail |
| Server.TotalPages | server.js:683-695 | `Math.ceil(total / limit)`: the least number of pages of `limit` rows that hold `total`, and `null` for a zero limit |
| Server.ProposalAccounts | server.js:581-700 | a 400 without a usable key, else a 500 or a page; a page exactly when both count queries and both page queries succeed and the paging is valid; the page holds the voted rows unchanged, one row per unvoted row, the page and limit asked for, and each table's total with its page count |
| Server.ProposalAccountsFlags | server.js:636-678 | each unvoted row keeps its fields and is flagged exactly when the outreach check was sent, succeeded and returned a row with its composite key; a failed check flags none |
| Server.Sample | server.js:731 | `accounts.find(...)`: the first truthy account with a truthy key parameter, or none when there is no such account |
| Server.ValidateBulk | server.js:724-751 | "No accounts" exactly for an empty list and "Missing key context" exactly when the key parameter is falsy or the value is nullish or empty; an accepted request has a valid key parameter, the given value and a non-empty de-duplicated identifier list |
| Server.BulkHashKeys | server.js:745-747 | the identifiers sent are the non-blank identifiers of the accounts, each once, in order of first appearance |
| Server.NoIdentifierRefused | server.js:745-751 | a body whose accounts carry no identifier is refused, whatever its key context |
| Server.BulkAdd | server.js:720-829 | a validation failure is its 400; otherwise a reply exactly when the three queries succeed, with `inserted` the reported `affectedRows` (0 when not a number), one message per duplicate and `skipped` their count |
| Server.DuplicatesSplitDetail | server.js:799-800 | the rows to insert and the duplicates split the detail rows: each row is in exactly one of them |
| Server.RecordOf | server.js:384-388 | without a `voting_status`, a truthy `voted` gives "voted" and anything else "unvoted" |
| Server.Upserts | server.js:382-405 | a row sends an upsert exactly when it has a truthy id, keyed by the id's text, with the record of its columns |
| Server.UpsertedKeys | server.js:395-405 | an id is in the table afterwards exactly when it was before or some row with that id was stored |
| Server.UpsertedLastWins | server.js:395-405 | the record under an id is that of the last row stored with that id (`ON DUPLICATE KEY UPDATE`) |
| Server.InsertAccountData | server.js:378-423 | as written: the table gets every successful upsert; a reply is sent exactly when some row has an id, and it counts the rows stored and all others as errors |
| Server.Counted | server.js:379-420 | the reported imported and errors add up to the number of rows |
| Server.QueueEmpty | server.js:382-393 | nothing is queued exactly when no row has an id |
| Server.QueueOfMeaning | server.js:382-405 | the queries sent are the rows with an id, each once, in order |
| Server.QueueOfCount | server.js:382-405 | as many queries are sent as there are rows with an id |
| Server.QueueRows | server.js:382-393 | the `forEach` queues the rows with an id and counts each other row as an error |
| Server.RunInserts | server.js:382-422 | the `forEach` then the callbacks in send order: the table and the counters are those stated, and a callback replies exactly when some query was sent |
| Server.RunCallbacks | server.js:405-421 | the callbacks store each successful row and count it; the last one brings `imported + errors` to the row count and replies |
| Server.UpsertStep | server.js:405-411 | a callback stores its row exactly when its upsert succeeded |
| Server.CountStep | server.js:406-411 | a callback counts its row as imported exactly when its upsert succeeded |
| Server.InsertAccountDataReplying | server.js:378-423 | corrected: the same table, and a reply always sent with the same counts |
| Server.AsWrittenNoReply | server.js:378-423 | a file of one row without an id queues no query, so the handler as written never replies |
| Server.AsWrittenCategoryBreaks | server.js:514 | as written: a category `\'`, its quote doubled, no longer reads back as a MySQL literal |
| Server.CategoryLiteral | server.js:513-515 | corrected: with quotes and backslashes both doubled, the literal MySQL reads back is the category sent |

## Left out

- Database and connection plumbing is not modelled. This covers:
  - MySQL connections, cursors and DDL;
  - `LOAD DATA LOCAL INFILE` and its temporary files;
  - `sudo mysql` subprocesses, `getpass` and argparse;
  - progress, timing and summary output.

  Their effect is an oracle or a parameter of the operation that uses them.
- `optimize_mysql_settings` and `restore_mysql_settings` only set session variables; they are left out.
- verify_proposals_predictions.py and test_sds_connection.py only run queries and print the results; they are not part of this model.
- pandas and pyarrow internals are not modelled:
  - a frame is its column names and rows;
  - a parquet file is its row groups;
  - `str()` of a cell is the parameter `render`;
  - dtype casting and NaN/inf replacement are modelled only as far as the scripts' own rules state them.
- Floating point: a float is an exact decimal.
  - There is no binary rounding and no overflow to infinity.
  - The rounding in `safe_float`, `parse_float` and `parse_numeric` is left out.
  - Throughput and percentage figures are left out.
- PredictionsSds.ParseNumeric: does not model `round(value, decimal_places)`. A float result is the unrounded value of `float(v)`.
- ProposalsBulk: the DECIMAL columns are left out of the tuple. They go through `parse_numeric` with Decimal rounding (import_proposals_predictions_bulk.py:36-53 and 216-230).
- PredictionsBulk, PredictionsNamed and ExcelProposals: the float columns are left out of the tuple.
  - Only the ValueError of `float()` matters, and only in PredictionsNamed.
  - The date columns of ExcelProposals are also left out, because `safe_date_convert` catches every exception.
- Outreach.Record: keeps the DECIMAL columns as their text. `int(float('inf'))` raises an OverflowError that the `safe_*` helpers do not catch; it is modelled as `RaisesOverflow`.
- Dates: the calendar rules inside `strptime` and JavaScript `Date` are not modelled. Only the order of the formats and the blank and `null` handling are.
- PyText: case mapping and digit tests cover ASCII only.
- PredictionsBulk, PredictionsNamed and PredictionsSds: a line shorter than its header is not modelled. `csv.DictReader` fills its missing fields with None, and `row[k]` reads that None without a KeyError. Each row is taken to hold a text for every column of its header.
- Outreach, ProposalsPredictions and ProposalsComprehensive read with `row.get(k)`, which gives None for an unfilled field and for a missing column alike. Their rows leave an unfilled field out, and nothing is lost.
- PyNum.IntOfFloatString: non-ASCII decimal digits, which Python's `int()` and `float()` also read, are rejected; so does the `int()` of Frames.ConvertCell and PredictionsBulk.ParseInt.
- Outreach.Outcome: a row that both breaks a column rule and repeats the unique key is reported by its column fault. The order in which MySQL runs its checks is not modelled.
- Server: MySQL's `utf8mb4_unicode_ci` collation and `LIKE` matching are not modelled. A search filter is only the condition text it adds.
- JsValue: numbers are integers, and the NaN of `parseInt` is `None`.
  - Object identity is approximated by value equality.
  - String `<` compares code points.
  - The order of `Object.keys` is a parameter.
- Script.StringToInt: returns `None` for numeric strings whose value is not an integer literal, such as `"1.0"`. So loose equality in the model does not treat `"1.0"` as equal to 1, although JavaScript does.
- Script: the following are left out, with the reason:
  - `calculateMetrics`, `parseNumberRaw`, `totalShares` and `toLocaleString` are floating point or formatting.
  - `sharesFor` and `overHalf` enter the confusion-matrix counts as parameters.
  - The DOM, Bootstrap modals, `fetch`, icons, timers, event wiring and the client-side admin password are browser code.
  - All of public/script_partial.js is navigation UI.
- Script.ProposalsTable.ApplySortingToProposals: states that the result is a sorted permutation, not that the sort is stable.
- Script: `toggleProposalSort` is declared twice and `applySortingToProposals` more than once. Later declarations win, so the model follows public/script.js:2283 and public/script.js:2316.
- Server: the Node callback interleaving is left out. This includes the `completed` counter of server.js:478-493.
  - Callbacks of one connection run in the order their queries were sent.
  - The results of the count, page and outreach queries of `/api/proposal-accounts` are parameters.
  - The accounts table is keyed by the string form of `account_id`.
- SdsCalibrated: the second flow of import_proxy_sds_calibrated_unified.py is modelled only through MapColumns and ApplyColumnMapping. That flow is:
  - `import_parquet_to_table`, which calls `fix_data_types`, a function not defined in the file (line 708);
  - `calculate_sds_statistics`, `check_existing_data`;
  - the second `main` from line 869.
- The following script mains are not modelled:
  - import_csv_direct.py (lines 117-169): it imports the two files in turn and prints the sum of the two counts.
  - preprocess_csv_for_optimization.py (lines 94-151): it skips missing files, counts the files converted and compares file sizes.
  - verify_csv_format.py (lines 186-241): it prints the results and exits with status 0 exactly when `valid` holds.
  - docker/optimize_sql_dumps.py (lines 105-126): it checks the argument count and that the input exists, then prints file sizes.
  - import_predictions_bulk.py, import_predictions_named.py, import_predictions_sds.py and import_excel_proposals.py: their `__main__` blocks only call the import with fixed paths.
- CsvTableImport: the retry of a failing batch is modelled as written. The batch is not cleared, so it is retried one row larger on every later row. The final count is then 0.
- SdsUnifiedParquet.CalculateResumePoint: a row group counts as committed when the cumulative count exactly ties the destination count, because of the `>` test at import_sds_unified_parquet.py:425. SdsCalibrated.CalculateResumePoint keeps the test of its own file in the same way.

## Findings

| source | as written | input that shows it | evidently intended | confidence | as-written member | corrected member |
|---|---|---|---|---|---|---|
| import_predictions_sds.py:99-121 | the INSERT names 48 columns but has 47 `%s` placeholders, so every execution raises and no row is ever stored | any row of a file that has every column | one placeholder per named column, so that a clean file is stored row for row | not executed | PredictionsSds.WrittenStatementNeverBinds, PredictionsSds.AsWrittenInsertsNothing, PredictionsSds.ImportCsvDataAsWritten | PredictionsSds.StatementBinds, PredictionsSds.CleanFileImported, PredictionsSds.ImportCsvData |
| import_predictions_bulk.py:73-91 | the same 48-column INSERT with 47 placeholders, so the `executemany` raises and the DELETE is rolled back | any file with at least one good row | the table replaced by the good rows | not executed | PredictionsBulk.AsWrittenStoresNothing, PredictionsBulk.ImportCsvDataAsWritten | PredictionsBulk.ReplacedByGoodRows, PredictionsBulk.ImportCsvData |
| server.js:514 | the category filter doubles single quotes but leaves backslashes alone, so a backslash escapes the doubled quote and the literal never ends | the category `\'` | a literal that MySQL reads back as the category sent | not executed | Server.AsWrittenCategoryBreaks | Server.CategoryLiteral |
| server.js:378-423 | the reply is sent only from an upsert's callback, so when no row has an id (or the data is empty) the request is never answered | `[{}]`, one row without an id | a reply with 0 imported and every row counted as an error | not executed | Server.InsertAccountData, Server.AsWrittenNoReply | Server.InsertAccountDataReplying |
