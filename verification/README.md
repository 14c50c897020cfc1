# SMT-Management daily-check and report data preparation, in Dafny

This project models the record-processing core of `utils.py` in the SMT-Management factory dashboard. This is the deterministic work that sits between the Google-Sheets reads and the FPDF drawing calls:

- **Daily-check reconciliation** (`generate_all_daily_check_pdf`). The result rows of one date are selected by the first whitespace-separated field of their `date` column. They are sorted by parsed `timestamp`, with NaT last. The last row per (`line`, `equip_id`, `item_name`) is kept. The checker name is the first entry of the surviving `checker` column.
- **Daily-check report assembly.** There is one section per distinct master `line`, in first-appearance order. Each section left-joins the line's master rows with the reconciled results and fills the gaps with `'-'`, `'-'`, `''`, `''`. It then counts `total`, `OK` and `NG` and lays the rows out as table lines. The fill flag alternates, a remark line follows each NG row that has a note, and equipment names are truncated to 18 characters. The `first_page` flag puts the checker's name on the first section only.
- **Production report data** (`generate_production_report_pdf`). The production rows have names truncated to 25 characters, a running `total_qty` and alternating fill. The inventory rows have names truncated to 35 characters. The inventory section appears only when that table is present and non-empty.
- **Sheet helpers.** `append_data` projects a record onto the sheet's header row. `load_data` pads missing expected columns with empty cells.

Modules: `Tables` (row types, timestamp order), `Text` (Python's whitespace split, name truncation), `Reconciliation`, `DailyReport`, `ProductionReport`, `SheetStore`.

Modelling choices:
- Tables are sequences of record datatypes.
- A parsed timestamp is `Option<int>`, with `None` (NaT) ordered after every time. A row whose timestamp cannot be parsed therefore wins its key group (`UnparsedTimestampWins`).
- `sort_values('timestamp')` sorts the parsed times with pandas' default sort, which is not stable, and then appends the NaT rows in their input order. It is modelled as a relation `IsTimestampSorting(order, rows)`: a sorted rearrangement whose NaT rows are those of `rows`, in the same order. `Reconcile` takes the chosen `order` as a parameter, and every property is proved for every such order. `SortByTimestamp` is one valid order, so one always exists.
- The code does not fix which of two same-key readings with equal parsed timestamps survives, because that part of the sort is unstable. The model leaves that choice open too, and `TieWinnerUnspecified` shows that both outcomes occur. Among NaT readings the outcome is fixed: the key's last NaT reading in input order survives (`NaTSurvivorIsLastNaT`, `NaTPairKeepsLater`).
- The empty-results branch of utils.py:398-402 is not modelled separately. `JoinWithNoResults` proves that the merge path produces the same rows.
- The page loops (`first_page`, `fill = not fill`, `total_qty += qty`) and the column-padding loop are methods with loop invariants. The padded DataFrame is a `Frame` class whose methods update its columns and rows.

## Model

| member | source | states |
|---|---|---|
| `Text.FirstField` | utils.py:350 | The result is None exactly when the string is all whitespace. Otherwise it is a non-empty run without whitespace that follows only whitespace and ends at whitespace or at the end of the string. |
| `Text.FirstFieldOfStamp` | utils.py:350-351 | A date followed by nothing, or by whitespace and any text such as a time, has that date as its first field. |
| `Text.LeadingSpace` | utils.py:350 | The result is the length of the maximal all-whitespace prefix. |
| `Text.FieldLength` | utils.py:350 | The result is the length of the maximal whitespace-free prefix. |
| `Text.Truncate` | utils.py:292 | A name no longer than the limit is unchanged. A longer one becomes its first limit-1 characters plus "..", exactly limit+1 long. The result is never longer than limit+1. |
| `Text.TruncateIdempotent` | utils.py:439 | Truncating a truncated name changes nothing. |
| `Reconciliation.FilterByDate` | utils.py:350-351 | A row is kept iff its date's first field equals `dateStr`. Kept rows keep their multiplicity and no other row survives. |
| `Reconciliation.FilterKeepsDatedRows` | utils.py:350-351 | A table whose rows are all on `dateStr` passes the filter unchanged. |
| `Tables.TsLeTotalPreorder` | utils.py:352-353 | The timestamp order is reflexive, total and transitive. NaT is above every value, and only NaT is above NaT. Parsed times compare as integers. |
| `Reconciliation.Insert` | utils.py:353 | Inserting into a sorted table yields a sorted table holding the old rows plus the new one. |
| `Reconciliation.InsertNaTRows` | utils.py:353 | Insertion keeps the NaT rows in order, with a new NaT row in front of the existing ones. |
| `Reconciliation.SortByTimestamp` | utils.py:352-353 | The result is a sorted rearrangement of its input that keeps its NaT rows in input order, so a valid sort outcome always exists. |
| `Reconciliation.KeepLast` | utils.py:353 | drop_duplicates keeps a subset of the rows and never grows the table. |
| `Reconciliation.KeepLastSurvivors` | utils.py:353 | A row survives drop_duplicates(keep='last') iff no later row shares its key. |
| `Reconciliation.KeepLastKeys` | utils.py:353 | Every key present before drop_duplicates is present after it, and no other key is. |
| `Reconciliation.KeepLastUniqueKeys` | utils.py:353 | After drop_duplicates no two rows share a key. |
| `Reconciliation.KeepLastSorted` | utils.py:353 | drop_duplicates of a timestamp-sorted table stays sorted. |
| `Reconciliation.KeepLastOfUnique` | utils.py:353 | A table with unique keys is unchanged by drop_duplicates. |
| `Reconciliation.Reconcile` | utils.py:350-353 | For every valid sort outcome, keys are unique and the rows stay in timestamp order. Every row comes from the input and is on `dateStr`. Every key with a reading that day is present. Each survivor's timestamp is at least that of every same-key reading that day, with NaT highest. |
| `Reconciliation.UnparsedTimestampWins` | utils.py:352-353 | If a key group holds a reading with an unparseable timestamp, its survivor has an unparseable timestamp. |
| `Reconciliation.TieWinnerUnspecified` | utils.py:353 | Two same-key readings with equal parsed timestamps can be sorted either way. Each order makes a different one survive. |
| `Reconciliation.NaTSurvivorIsLastNaT` | utils.py:352-353 | In every valid sort order, a survivor with NaT is the last NaT reading of its key that day, in input order. |
| `Reconciliation.NaTPairKeepsLater` | utils.py:352-353 | Of two same-key NaT readings, the later one survives in every valid sort order. |
| `Reconciliation.ReconcileIdempotent` | utils.py:350-353 | Reconciling the reconciled table again, in any valid order, yields the same rows. |
| `Reconciliation.CheckerName` | utils.py:354-356 | The name is empty for no rows. Otherwise it is the checker of the first reconciled row, and any non-empty name belongs to some reconciled row. |
| `Reconciliation.CheckerOfEarliestReading` | utils.py:353-356 | The printed checker is the one from a surviving reading with the earliest timestamp. |
| `DailyReport.Matches` | utils.py:397 | The result holds exactly the right-hand rows with the key. It is empty iff no row has the key. |
| `DailyReport.LeftJoin` | utils.py:395-406 | The left merge has at least as many rows as master rows, and every output row carries a master row of the input. |
| `DailyReport.LeftJoinKeepsEveryMaster` | utils.py:397 | Every master row appears in some output row of the left merge. |
| `DailyReport.RowFor` | utils.py:397-406 | The joined row keeps its master row. With no matching result it holds '-', '-', '', ''. Otherwise it holds the value, ox, checker and note of a result row with the same key. |
| `DailyReport.LeftJoinOneRowPerMaster` | utils.py:395-408 | With unique result keys the merge has exactly one row per master row, in master order, and row i is the joined row of master row i. |
| `DailyReport.JoinWithNoResults` | utils.py:396-402 | With no results, the merge gives every master row filled as unmatched. This is what the separate empty branch builds. |
| `DailyReport.CountOx` | utils.py:409-410 | A verdict count never exceeds the number of rows. |
| `DailyReport.CountOxIsMultiplicity` | utils.py:409-410 | A verdict count is the number of times the verdict occurs in the `ox` column. |
| `DailyReport.CountOxExtremes` | utils.py:409-410 | A verdict count is zero iff no row has that verdict, and equals the row count iff every row has it. |
| `DailyReport.CountMatched` | utils.py:408-410 | The number of master rows with a result never exceeds the number of master rows. |
| `DailyReport.CountMatchedIsMultiplicity` | utils.py:408-410 | The matched count is the number of master rows for which some result row has the same key. |
| `DailyReport.VerdictsOnlyFromResults` | utils.py:408-410 | OK plus NG is at most the number of master rows that have a result. Filled rows count as neither. |
| `DailyReport.RenderTable` | utils.py:434-469 | The row loop with its toggled fill flag produces exactly the table lines of the rows, starting unshaded. |
| `DailyReport.ItemsOfConcat` | utils.py:437-459 | The item lines of two concatenated line lists are the item lines of each, in order. |
| `DailyReport.TableItemLines` | utils.py:437-459 | There is one item line per joined row, in row order, with the equipment name truncated to 18 and shading alternating row by row. |
| `DailyReport.RemarksOnlyForNotedNG` | utils.py:462-467 | Every remark line carries the note of a row whose verdict is NG and whose note is non-empty. |
| `DailyReport.RemarkAfterNotedNG` | utils.py:437-467 | Every NG row with a non-empty note gets its remark line directly after its own item line, with the same fill flag. |
| `DailyReport.Distinct` | utils.py:372 | `unique()` holds each value of the column exactly once, no others, in order of first appearance. |
| `DailyReport.LineMaster` | utils.py:395 | A line's master rows are exactly the master rows of that line. |
| `DailyReport.LineMasterCounts` | utils.py:395 | Each master row of the line is selected as many times as it occurs in the master table, and no other row is. |
| `DailyReport.SectionCounts` | utils.py:395-410 | With reconciled results, a section's total equals the number of master rows of its line, and OK plus NG is at most that total. |
| `DailyReport.EveryMasterRowReported` | utils.py:372-408 | Every master row's line has a section, and the row's joined row is in that section. |
| `DailyReport.BuildSection` | utils.py:395-469 | One page body: the joined rows, their OK and NG counts and the rendered table are exactly the line's section. |
| `DailyReport.SectionsFor` | utils.py:372-470 | The page loop with its `first_page` flag yields, for each line in order, that line's section, with the checker's name on the first section only and only if non-empty. |
| `DailyReport.BuildSections` | utils.py:372-470 | There is one section per distinct line, in first-appearance order. The checker name appears on the first section only, and only if non-empty. Each section's counts and table are those of its line. |
| `DailyReport.DailyCheckReport` | utils.py:343-470 | The whole preparation: the checker of the reconciled results, one section per line, each total equal to the line's master-row count, and OK plus NG at most the total. |
| `ProductionReport.TotalQuantityConcat` | utils.py:286-295 | The total of two concatenated tables is the sum of their totals. |
| `ProductionReport.TotalQuantityBounds` | utils.py:295 | With no negative quantities the total is non-negative and at least every single quantity. |
| `ProductionReport.ProductionTable` | utils.py:284-298 | There is one line per record, in order, with the name truncated to 25 and shading alternating from unshaded. The total is the sum of all quantities. |
| `ProductionReport.InventoryTable` | utils.py:322-334 | There is one line per inventory row, in order, with the name truncated to 35 and alternating shading. |
| `ProductionReport.BuildProductionReport` | utils.py:284-334 | The production lines and total are as above. The inventory section exists iff an inventory table is given and is non-empty, and then holds its lines. |
| `SheetStore.KeysOf` | utils.py:110 | The fallback headers are the record's keys in insertion order. |
| `SheetStore.Get` | utils.py:111 | The result is the record's value for the key, or "" when the key is absent. |
| `SheetStore.RowCells` | utils.py:109-111 | There is exactly one cell per header, in header order. A cell holds the record's value for its header, or "" when the record lacks it. Keys that are not headers do not appear. |
| `SheetStore.RowCellsOwnKeys` | utils.py:110-111 | When the header row cannot be read, the row sent is the record's values in insertion order. |
| `SheetStore.Padded` | utils.py:83-85 | The existing columns stay first and in order. Every expected column is present, and no other column is added. |
| `SheetStore.PaddedAppendsMissing` | utils.py:84-85 | Every appended column is an expected column the table lacked, and none is appended twice. Together with `Padded`, the appended columns are exactly the missing expected ones. |
| `SheetStore.FirstIndex` | utils.py:84 | The position of the first occurrence of a column in the expected list. |
| `SheetStore.PaddedAppendsInOrder` | utils.py:84-85 | The appended columns come in the order of their first occurrence in the expected list. |
| `SheetStore.PaddedNoDuplicates` | utils.py:84-85 | Padding never introduces a repeated column. |
| `SheetStore.PaddedComplete` | utils.py:84-85 | A table that already has every expected column is unchanged. |
| `SheetStore.PaddedIdempotent` | utils.py:83-85 | Padding a padded table changes nothing. |
| `SheetStore.Frame.AddColumn` | utils.py:85 | A column the table lacks is added last, and every row gains one empty cell. |
| `SheetStore.Frame.PadColumns` | utils.py:83-85 | The loop leaves the columns equal to `Padded` of the old ones. Every old cell is kept and every new cell is empty. |

## Left out

- Google-Sheets access and caching (`get_gs_connection`, `get_worksheet`, `load_data`'s read and its failure paths, `save_data`, the append call itself, `clear_cache`) are network I/O and library state. Only the projection and padding steps are modelled.
- `load_data`'s `dropna`/`fillna` clean-up is left out. Cells are modelled as strings that are already filled, so NaN semantics (including pandas matching NaN keys in merges) are not represented.
- The Streamlit screens, the hard-coded login and the dashboard KPIs are user interface and are left out.
- FPDF drawing, fonts, colours, the font download over HTTP and the temporary-file round trip are left out. Drawing also covers the "No Production Data" placeholder cell, the `Date:` header and the thousands-separated number formatting. Sections and tables are modelled as data.
- `make_hash` (SHA-256) and `get_now` (wall clock) are foreign calls and are left out.
- Quantity and stock parsing (`int(float(...replace(',', '')))`) and timestamp parsing (`pd.to_datetime(..., errors='coerce')`) are left out. The records hold the parsed integer or `Option<int>`.
- `ProductionReport.BuildProductionReport`: a quantity or stock cell that does not parse as a number makes the source raise `ValueError` (utils.py:294, 332). That includes the blank cells `load_data` produces (utils.py:81), and the whole report then becomes `None` (utils.py:341). Because the records hold already-parsed integers, the model cannot represent that failure.
- `str()` and `astype(str)` conversions of non-string cells are left out, and cell values are held as strings.
- The `try`/`except` wrappers that turn any exception into `None` are left out. Besides I/O and drawing, exceptions can come from number parsing (above) and from `pd.merge` on key columns of incompatible types (utils.py:397). The model has typed records, so it has neither failure.
- Reading evaluation against `min_val`/`max_val` and inventory balance updates are left out because `utils.py` does neither. The per-line completion count is done by the daily-check page, which is not part of this model.
