# Ticket spreadsheet pipeline — a Dafny model

This project models the domain logic of a ticket-tracking dashboard. The
dashboard reads an exported spreadsheet of support tickets, normalises its
headers onto standard column names, cleans the cells, and splits the tickets
into pending and resolved. From that it computes the distributions, daily and
cumulative timelines, resolution times, display tables and headline metrics.
It also persists the tickets in a one-table store that is replaced on every
save. Pandas, Streamlit, Plotly and SQLAlchemy are not modelled. What the
code does with them is stated over plain values:

- a DataFrame is a `Frame.Table`: a list of column labels and rows of
  optional cells, in column order;
- a timestamp is a whole number of seconds, and its calendar date is
  `seconds / 86400`;
- `.dt.days` is the floored day difference;
- `strftime('%Y-%m-%d')` is a proleptic Gregorian rendering, proved to read
  back.

Modules, leaf first:

- `Wrappers`: `Option` and `Result`.
- `Text`: ASCII `lower`/`strip`, decimal rendering, and the `int(float(s))`
  parse.
- `Calendar`: days, day differences and ISO dates.
- `Frame`: the table and its mask and column operations.
- `Aggregate`: `value_counts`, group-by-day and `cumsum`.
- `Schema`: `validate_columns` and the column mapping of `clean_data`.
- `Cleaning`: the rest of `clean_data` and `_process_uploaded_data`.
- `Classify`: pending/resolved buckets, distributions, resolution time and
  `process_data`.
- `Charts`: the data behind every `TicketVisualizer` method.
- `Dashboard`: filter options, `apply_filters`, `display_metrics` and the
  session screens.
- `Store`: `DatabaseManager` and its `safe_*` helpers.

The code has three different pending rules, and each is modelled as written:

- `data_processor.py` and the visualizer exclude `Discard` from pending.
- `database.py` counts pending as total − resolved, so `Discard` counts as
  pending there. `Store.StatsAfterSave` proves that the store's pending
  count is the processor's pending count plus the `Discard` count.
- `app.py` counts only `Open`, `In Progress` and `Pending` as pending, and
  leaves `Auto Completed` out of resolved. `Dashboard.MetricsDisagreeWithProcessor`
  exhibits this with a single `Auto Completed` ticket.

Two behaviours of the code are easy to misread, and the model follows the
code in both:

- `get_pending_tickets` lists `Discard` among the statuses it excludes
  (data_processor.py:156), while `get_resolved_tickets` does not include it,
  so a `Discard` ticket is in neither bucket. `database.py` and `app.py` use
  the other rules above.
- The column renaming in `clean_data` (data_processor.py:77-111) is
  idempotent only when no two headers share a lower-cased, trimmed form.
  `Schema.RenameNotIdempotent` gives the counterexample
  `["subject", "Subject "]`, and `Schema.RenameIdempotent` proves the
  property under that condition.
- Unrecognised headers are kept, not dropped.

## Model

| member | source | states |
|---|---|---|
| Schema.Key | data_processor.py:63 | a header is compared lower-cased and trimmed: the compared form has no upper-case letter and no white space at either end |
| Schema.ValidateColumns | data_processor.py:61-70 | the loop over the required names returns exactly `MissingColumns(columns)` |
| Schema.CollectMissing | data_processor.py:63-70 | the append loop returns the names whose lower-case form is not among the lowered headers, in list order |
| Schema.MissingColumnsMeaning | data_processor.py:61-70 | a required name is reported iff no lower-cased, trimmed header equals its lower-case form; the report keeps required-list order; it is empty iff every required name is satisfied |
| Schema.StatusHeaderVariants | data_processor.py:63-67 | both `" Current Status "` and `"current status"` satisfy `Current Status` |
| Schema.ValidateColumnsReportsInOrder | data_processor.py:66-68 | with only a `current status` header the other three required names are reported, in order |
| Schema.RecognisedDistinct | data_processor.py:10-18 | no two recognised names share a lower-case form |
| Schema.LowerMap | data_processor.py:79 | every header's compared form is a key, and each key maps to a header with that compared form (the last one wins) |
| Schema.Recognise | data_processor.py:81-89 | the recognised name for a compared form is a listed name with that lower-case form, or none iff no listed name has it |
| Schema.RecogniseNames | data_processor.py:81-89 | the required and optional loops build the recognition mapping name by name |
| Schema.RewriteSynonyms | data_processor.py:103-108 | the synonym loop rewrites each mapped name through the synonym table and leaves the set of mapped headers unchanged |
| Schema.BuildColumnMapping | data_processor.py:78-108 | the three loops together produce `ColumnMapping(columns)` |
| Schema.ColumnMappingMeaning | data_processor.py:78-108 | a header is mapped iff it is the kept header of a recognised compared form, and it maps to that name's synonym |
| Schema.SynonymTable | data_processor.py:92-108 | the sequential synonym pass is a table lookup: left-hand sides are rewritten and every other name is kept |
| Schema.RenameKeepsUnrecognised | data_processor.py:110-111 | a header matching no recognised name keeps its original name |
| Schema.RenameLastHeader | data_processor.py:79-111 | the last header with a recognised compared form is renamed to that name's final form |
| Schema.RenameEarlierDuplicate | data_processor.py:79-111 | an earlier header whose compared form a later, differently spelled header shares keeps its name |
| Schema.RenameReachesStandardNames | data_processor.py:79-111 | when validation reports nothing missing, the renamed headers include `Ticket ID`, `Status`, `Assigned User` and `Created Date` |
| Schema.RenameIdempotent | data_processor.py:79-111 | with distinct compared forms, renaming the renamed headers changes no name |
| Schema.RenameNotIdempotent | data_processor.py:79-111 | for `["subject", "Subject "]` a second rename changes `subject` to `Title`, so renaming is not idempotent in general |
| Cleaning.ParseDate | data_processor.py:113-118 | date coercion never fails: the result is null or a timestamp; a timestamp passes through, a date becomes its midnight, a null stays null, and any other value becomes null exactly when the parser cannot read it and otherwise the parser's timestamp |
| Cleaning.CleanText | data_processor.py:120-125 | a text cell becomes its stripped string form, and it is null iff that form is `nan` |
| Cleaning.CleanTicketId | data_processor.py:127-129 | a ticket id becomes its stripped string form and is never null |
| Cleaning.CleanCellConforms | data_processor.py:113-129 | each cleaned cell fits its column (date: null or timestamp; text: trimmed and not `nan`; id: trimmed text), and untouched columns keep their cells |
| Cleaning.CleanCellIdempotent | data_processor.py:113-129 | cleaning an already cleaned cell changes nothing |
| Cleaning.FirstRepeated | data_processor.py:113-129 | finds the first cleaned column name that labels two columns (where pandas raises), or none iff no such name exists |
| Cleaning.CleanColumns | data_processor.py:113-129 | one cleaning loop cleans every listed column in place, or stops with the first repeated label |
| Cleaning.RenameHeaders | data_processor.py:78-111 | the header half of `clean_data` yields `Rename(headers)` |
| Cleaning.CleanData | data_processor.py:72-134 | `clean_data` yields exactly `Cleaned(t)`: renamed headers, cleaned cells and all-null rows dropped, or the repeated header that raises |
| Cleaning.CleanedConforms | data_processor.py:72-134 | the cleaned table is well formed, no row is all null, and every cell conforms to its column |
| Cleaning.CleanRowsInOrder | data_processor.py:131-132 | the kept rows are a subsequence of the cleaned rows |
| Cleaning.CleanedKeepsEveryRowWithIds | data_processor.py:127-132 | with a ticket-id column no row is dropped, and row i is row i cleaned |
| Cleaning.CleanedSucceeds | data_processor.py:113-129 | distinct renamed headers never make cleaning raise |
| Cleaning.ProcessUploadedData | data_processor.py:42-59 | an empty table is refused first, then one with missing required columns (naming them); otherwise it is cleaned; an accepted table has the renamed headers and the four standard columns |
| Classify.MasksSelectBuckets | data_processor.py:150-169 | the two `isin` masks pick exactly the pending and resolved buckets of the reference partition |
| Classify.PendingTickets | data_processor.py:150-159 | the pending rows are a subsequence of the input, and a row is kept iff its status is neither resolved nor `Discard`; the result is an empty frame without a status column |
| Classify.ResolvedTickets | data_processor.py:161-169 | the resolved rows are a subsequence, and a row is kept iff its status is `Closed`, `Completed` or `Auto Completed` |
| Classify.BucketsDisjoint | data_processor.py:150-169 | no row is both pending and resolved, and a `Discard` row is in neither |
| Classify.BucketsPartition | data_processor.py:150-169 | pending + resolved + `Discard` counts equal the row count |
| Classify.Distribution | data_processor.py:171-197 | value counts give one positive count per distinct non-null value, equal to its number of occurrences, non-increasing, and summing to the non-null count |
| Classify.DaysToResolveMeaning | data_processor.py:208-211 | one resolution time per row with both dates: the k-th value is the floored day difference of the k-th such row |
| Classify.CalculateResolutionTime | data_processor.py:199-211 | empty when a date column is missing; at most one value per resolved row |
| Classify.ResolutionTimesFromResolvedRows | data_processor.py:199-211 | the resolved rows with both dates form a subsequence of the table, and the k-th resolution time is `WholeDays(created, resolved)` of the k-th of them, one value per row |
| Classify.ProcessedTotals | data_processor.py:136-148 | `total_tickets` = pending + resolved + `Discard` count |
| Aggregate.ValueCounts | data_processor.py:176 | `value_counts` tallies the non-null values (distinct keys, positive counts, per-value occurrence counts), most frequent first |
| Aggregate.GroupByDay | visualizations.py:42-44 | one entry per distinct day with its number of rows, in strictly ascending days, summing to the number of days |
| Aggregate.CumulativeProperties | visualizations.py:361-364 | the running sum never decreases, and its last value is the total of the counts |
| Calendar.DayOf | visualizations.py:42 | `.dt.date` is the day containing the timestamp: `86400·d ≤ t < 86400·(d+1)` |
| Calendar.WholeDays | data_processor.py:209 | `.dt.days` is the floored whole-day difference, non-negative iff the later date is not earlier |
| Calendar.IsoDateRoundTrip | visualizations.py:345 | `%Y-%m-%d` of a day in years 0–9999 is 10 characters with dashes at positions 4 and 7, and it parses back to the same day |
| Calendar.EpochAnchor | visualizations.py:345 | day 0 is 1 January 1970 and renders as `1970-01-01` |
| Charts.FormatDateRoundTrip | visualizations.py:343-345 | a formatted date cell is null iff the date is, and otherwise reads back as its day |
| Charts.DailySplitWithinTotal | visualizations.py:124-136 | on every date the resolved count plus the pending count is at most the total |
| Charts.CompositeProperties | visualizations.py:121-137 | the composite series has strictly ascending, unique dates, exactly the non-null dates, and resolved + pending ≤ total on each |
| Charts.WithDateColumnDays | visualizations.py:121 | the added `Date` column holds exactly the creation days, row by row |
| Charts.Present | visualizations.py:324-339 | the display columns are the present subset of the fixed list, in list order |
| Charts.AppendIfPresent | visualizations.py:325-326 | each `if … in columns: append` step extends the present prefix |
| Charts.PendingDisplay | visualizations.py:324-338 | the pending table's column list is the present subset of its fixed seven names, in order |
| Charts.ResolvedDisplay | visualizations.py:466-482 | the resolved table's column list is the present subset of its fixed eight names, in order |
| Charts.DisplayTable | visualizations.py:341-345 | one row per input row; each cell is the row's value under that column, with date columns formatted |
| Charts.FormatIfShown | visualizations.py:343-345 | formatting a date column when shown extends the set of formatted columns |
| Charts.DailyCurve | visualizations.py:360-364 | the daily counts are strictly ascending, and the cumulative curve is non-decreasing and ends at the number of rows with a date |
| Charts.ResolvedWithDatesDays | visualizations.py:275-286 | the chart's own filter (resolved and both dates present) yields the same days as `calculate_resolution_time` |
| Charts.TicketVisualizer.constructor | visualizations.py:10-11 | the visualizer holds the given data |
| Charts.TicketVisualizer.StatusDistributionChart | visualizations.py:21-31 | the pie shows (pending excluding `Discard`, resolved), and is none without a status column, for empty data or when both are 0; the two counts plus `Discard` make the total |
| Charts.TicketVisualizer.DailyCounts | visualizations.py:37-44 | the daily timeline has strictly ascending dates, and its counts sum to the rows with a non-null date |
| Charts.TicketVisualizer.ValueCountsChart | visualizations.py:87-92 | the priority chart tallies the non-null priorities, and is none when the column is absent or the data is empty |
| Charts.TicketVisualizer.PendingBy | visualizations.py:163-175 | value counts over the pending rows; a `KeyError` iff the status column is absent; none when nothing is pending |
| Charts.TicketVisualizer.ResolvedBy | visualizations.py:233-245 | value counts over the resolved rows; none when there are no resolved rows or every resolver is null |
| Charts.TicketVisualizer.ResolutionTimeChart | visualizations.py:269-289 | the histogram data is `calculate_resolution_time` and is non-empty; none when a date column is missing or there is nothing to show; a `Status` KeyError exactly when both date columns exist and `Status` does not |
| Charts.TicketVisualizer.DayWisePending | visualizations.py:349-364 | the cumulative pending curve over creation days, or none when there are no pending rows; a `Status` KeyError exactly when the guard passes and `Status` is absent |
| Charts.TicketVisualizer.DayWiseResolved | visualizations.py:389-404 | the cumulative resolved curve over resolution days, or none when there are no resolved rows; a `Status` KeyError exactly when the guard passes and `Status` is absent |
| Charts.TicketVisualizer.CreateDailyTicketsLineChart | visualizations.py:116-137 | adds the `Date` column to the held data, then yields the composite series; a `KeyError` without `Ticket ID`, after the column was added |
| Charts.TicketVisualizer.PendingTicketsTable | visualizations.py:311-347 | exactly the pending rows with the present fixed columns and `Created Date` formatted; an empty frame for empty data or no pending rows |
| Charts.TicketVisualizer.ResolvedTicketsTable | visualizations.py:453-493 | exactly the resolved rows with the present fixed columns and both dates formatted; an empty frame for empty data or no resolved rows |
| Dashboard.Texts | app.py:106 | the non-null text values of a column, as a list |
| Dashboard.SortedDistinct | app.py:106 | `sorted(set(xs))`: strictly ascending, with the same elements |
| Dashboard.FilterOptions | app.py:104-123 | `All` followed by the ascending distinct non-null texts of the column; no selector when the column is absent |
| Dashboard.FilterOptionsDistinct | app.py:106 | each value appears once after `All` |
| Dashboard.ApplyFilters | app.py:150-174 | the staged filters yield the rows that pass every active filter, in their order |
| Dashboard.FilteredRows | app.py:150-174 | the result is a subsequence of the input, and a row is kept iff it passes every active filter |
| Dashboard.NoFilterKeepsAll | app.py:155-172 | with every choice `All` and no two-day range the output equals the input |
| Dashboard.DateRangeInclusive | app.py:155-160 | a kept row has a creation day with start ≤ day ≤ end |
| Dashboard.AbsentColumnSkipped | app.py:162-168 | a filter on an absent column lets every row through |
| Dashboard.Rate | app.py:199-200 | rate × total = resolved × 100, and the rate lies in [0, 100] when resolved ≤ total |
| Dashboard.StatusListsDisjoint | app.py:184-196 | no status is in both the pending list and the resolved list |
| Dashboard.MetricsCounts | app.py:176-203 | total = row count; pending and resolved are counts over the two lists, their sum is at most the total, and each is present iff the status column is |
| Dashboard.RateBounds | app.py:198-203 | the rate exists only when total > 0, equals resolved/total×100, and lies in [0, 100] |
| Dashboard.MetricsDisagreeWithProcessor | app.py:191-194 | an `Auto Completed` ticket is resolved for the processor but counted in neither metric |
| Dashboard.Session.constructor | app.py:18-22 | both session slots start empty |
| Dashboard.Session.Upload | app.py:39-52 | an accepted upload replaces both slots with the cleaned table and its processing; a refused upload changes nothing |
| Dashboard.Session.Render | app.py:59-136 | the welcome screen iff nothing is loaded; otherwise "no match" iff the filtered table is empty, else the filtered table and its metrics |
| Text.ParseTruncatedDecimal | database.py:85-91 | `int(float(s))` yields a value only for a non-blank string |
| Text.ParseIntToString | database.py:89 | the decimal rendering of an integer parses back to that integer |
| Text.PlainNumber | database.py:89 | `int(float("whole.fraction"))` is the whole part: the fraction is dropped |
| Text.SignedNumber | database.py:89 | with a `-` or `+` sign the whole part takes that sign, so `-3.9` gives -3: truncation toward zero |
| Text.WholePart | database.py:89 | the whole part is the quotient of all the digits by the fraction's place value, so dropping the fraction is truncation |
| Text.RejectsStrayCharacter | database.py:88-91 | a character other than a digit or a point after the sign makes the text not a number |
| Text.RejectsSecondPoint | database.py:88-91 | a second decimal point makes the text not a number |
| Store.SafeString | database.py:80-83 | null or any case variant of `nan` becomes `''`, anything else its string form; the result is never a `nan` spelling |
| Store.SafeInt | database.py:86-92 | null, `''` and `nan` become 0; a number stays as it is; a text becomes its truncated parse, or 0 when it does not parse |
| Store.SafeDatetime | database.py:70-77 | null, `''` and `nat` become none; a timestamp passes through, a date becomes its midnight, and any other text or number gets the parser's verdict, none when it cannot be read |
| Store.AbsentColumnDefault | database.py:95-119 | the `row.get` defaults convert the same way as a null cell |
| Store.ResaveStable | database.py:70-92 | converting a restored value again gives the same stored value |
| Store.LoadMirrorsSave | database.py:94-172 | the j-th loaded column is the column that the save read for the j-th attribute, and the load reads that same attribute |
| Store.LoadedNamesDistinct | database.py:146-172 | the loaded column names are distinct |
| Store.ToRecord | database.py:94-120 | each attribute is the conversion of the row's value under its column |
| Store.Converted | database.py:68-121 | one record per row, in order |
| Store.LoadRow | database.py:146-172 | each loaded cell is the restored stored value |
| Store.LoadedTable | database.py:140-174 | an empty frame when there are no records; otherwise one row per record under the loaded header |
| Store.SaveLoadRoundTrip | database.py:94-172 | save then load gives one row per saved row, in storage order; each cell is the converted value, and a text column returns `safe_string` of the saved value |
| Store.ResaveLoaded | database.py:94-172 | saving a loaded table again stores exactly the same records |
| Store.StatsOf | database.py:185-200 | total = record count, resolved = records in the resolved set, pending = total − resolved ≥ 0 |
| Store.StoredStatusResolved | database.py:187-190 | a stored status is resolved iff the processor's resolved mask holds for the row |
| Store.StatsAfterSave | database.py:185-192 | after a save, stats-resolved is the processor's resolved count, and stats-pending is the processor's pending count plus the `Discard` count |
| Store.ClearedStore | database.py:140-200 | an empty store loads as an empty frame and has stats {0, 0, 0} |
| Store.TicketStore.constructor | database.py:51-53 | a new store holds no tickets |
| Store.TicketStore.SaveTickets | database.py:59-131 | success iff no failure and the ticket ids are distinct; on success the store holds exactly the converted rows, in order; on failure it is unchanged |
| Store.TicketStore.LoadTickets | database.py:133-178 | the loaded table of the stored records, in storage order; an empty frame on failure |
| Store.TicketStore.GetTicketStats | database.py:180-204 | the stats of the stored records, or {0, 0, 0} on failure; pending + resolved = total |
| Store.TicketStore.ClearAllData | database.py:206-216 | on success the store is empty; on failure it is unchanged |

## Left out

- Reading the upload (`pd.read_excel`, `pd.read_csv`) and the exceptions those raise are I/O. The model starts from a table.
- Streamlit output (`st.*`), page configuration, tabs, spinners and messages are presentation.
- Plotly figure construction (`px.*`, `update_traces`, `update_layout`, colours, heights) is presentation. Each chart method yields the data it would plot.
- The SQLAlchemy engine, sessions, the `DATABASE_URL` lookup, the `id` primary key and the `upload_timestamp` column are not modelled. A database failure is a `fails` parameter.
- Day-first date parsing is the `parse` parameter, an arbitrary partial function. Time zones and sub-second precision are not modelled.
- Only integer numbers are modelled. There is no float arithmetic and no `.1f` formatting of the rate.
- `Text.Lower` and `Text.Strip` cover ASCII only: the ASCII white space `str.strip()` removes (including the separators 0x1C–0x1F) is modelled, but there is no Unicode case folding or non-ASCII white space.
- Text.ParseTruncatedDecimal: accepts plain decimals only. It does not model exponents, `inf`/`nan` spellings or underscores, which `float()` accepts.
- The date picker's default range (`app.py:91-100`) is left out. The chosen range is a parameter.
- `display_overview` and the two display-tab functions in `app.py` only render the visualizer's outputs.
- Schema.RenameIdempotent: requires distinct lower-cased, trimmed headers. `Schema.RenameNotIdempotent` shows that the property fails without it.
- Charts.TicketVisualizer.ResolutionTimeChart: `.notna()` is modelled as the cell holding a timestamp. The two agree on cleaned tables, where date cells are timestamps or null.
- Store.TicketStore.LoadTickets: `session.query(Ticket).all()` (database.py:137) has no `ORDER BY`, so the database does not fix the order of the loaded rows. The model returns them in insertion order. `Store.SaveLoadRoundTrip` and `Store.ResaveLoaded` rely on that order too.
- Frame.DateOf: a cell that is neither a timestamp nor a date counts as null. `pd.to_datetime` at visualizations.py:42, :121 and :345 is called without `errors='coerce'`, so it would parse such a string or raise. `Charts.TicketVisualizer.DailyCounts`, `Charts.DailyCurve`, `Charts.WithDateColumnDays`, `Charts.FormatDateRoundTrip`, `Charts.TicketVisualizer.DayWisePending` and `Charts.TicketVisualizer.DayWiseResolved` are built on it. So is the dashboard's date filter, `pd.to_datetime(filtered_data['Created Date'])` at app.py:158-159, modelled by `Dashboard.InRange`, `Dashboard.ApplyFilters`, `Dashboard.FilteredRows` and `Dashboard.DateRangeInclusive`. They are exact only on cleaned tables, where every date cell is a timestamp or null.
- A null `Cell` stands for pandas' `NaN`/`NaT` only. `Frame.ShowCell` renders it as `"nan"`, as `astype(str)` does at data_processor.py:124 and :129. A Python `None` in an object column would render as `"None"` and would not be nulled by cleaning; the model has no such value.
- Store.TicketStore.SaveTickets: the only integrity constraint modelled is the unique `ticket_id` check. Other database errors go through `fails`.
