# On-search dashboard, modelled in Dafny

`on_search_dashboard.py` is a Streamlit page that reads an on-search export
(one row per search a buyer app made against an outlet), keeps the two latest
search dates, and reports how store coverage per buyer app changed between
them, which stores appeared or disappeared, and why today's rejected
searches (NACKs) failed. This project models the data rules inside that page
and proves what they compute.

A sheet row is a `Records.Row` whose 'Searched On' has already been through
pandas' tolerant timestamp parser (`None` where parsing failed), with the
date kept as (day, month, year). Rows that survive normalisation become
`Records.Record`s. One module per rule:

- `Normalizer`: `load_data`. The model drops rows that lack a date, outlet or
  app. It then drops every row whose `dd-mm-yyyy-outlet-app` key string was
  already seen, keeping the first.
- `PeriodSelector`: `get_latest_two_dates`. The model takes the distinct date
  strings, sorts them chronologically by (year, month, day) and keeps the
  last two.
- `Coverage`: `buyer_app_summary`. Per buyer app, it counts distinct outlets
  on each date. The apps are the union of both dates, in pandas' sorted
  order; an app missing on a date counts 0 there; `Difference` = today −
  yesterday.
- `MissingOutlets`: `get_missing_outlets`. It keeps the rows of each day
  whose `outlet|app` key does not occur on the other day.
- `Reasons`: `extract_reason`, a first-match substring classification of the
  lower-cased message.
- `NackSummary`: `nack_summary`. It takes the NACK rows with their reasons
  and groups them by (app, reason) in sorted order. Each group gets its
  distinct-outlet count, the groups are numbered 1..n, and the counts are
  totalled.
- `Colors`: `color_for_value`.
- `Dashboard`: the page's pipeline. It halts when there are fewer than two
  dates, and otherwise computes the KPI figures.
- `Strings`, `Seqs`, `Dedupe`, `Records`: the pandas operations the rules are
  built from. These are lower/upper case, `in` on strings, Python string
  order, the sorted group index, boolean-mask row selection, and
  `drop_duplicates` with `keep='first'`.
- `Scenarios`: a concrete two-day sheet pushed through every rule.

The table-building steps are methods with loops, each proved equal to a
specification function or declarative contract. The lemmas then state what
the source promises about those functions. `extract_reason`,
`color_for_value` and `get_latest_two_dates` are pure functions.

Both composite keys are the concatenated strings the code builds, not
tuples. Lemmas show where this matters. With no separator inside outlet
names, equal keys mean equal fields (`DedupeKeyInjective`,
`KeyAbsentIffPairAbsent`). Without that condition, distinct rows collide
(`DedupeKeyCollision`, `CollisionDropsRow`, `OutletKeyCollision`).

Some details of the code that the model keeps as written:
- A missing message is `str(NaN)`, that is `"nan"`. It matches no rule and
  gives "Other" (`Reasons.MissingMessageIsOther`).
- Keys are separator-joined strings (see above).
- `get_missing_outlets` returns the rows of each day.
- `total_rejected` is the sum of the per-group distinct-outlet counts. This
  is the number of distinct (app, reason, outlet) triples
  (`NackSummary.TotalRejectedIsTriples`). When no outlet of an app is
  rejected for two different reasons, it is also the number of distinct
  rejected (app, outlet) pairs (`NackSummary.TotalRejectedIsPairs`).

## Model

| member | source | states |
|---|---|---|
| Normalizer.DropIncomplete | on_search_dashboard.py:20 | dropna never adds rows, and it keeps every row exactly when every row has a date, an outlet and an app |
| Normalizer.DedupeKey | on_search_dashboard.py:21 | the key is the ten-character searched_date, a dash, the outlet name, a dash and the app, so it is 12 characters longer than outlet and app together |
| Normalizer.Normalize | on_search_dashboard.py:16-23 | the loaded table is no longer than the sheet and no two of its rows share a dedupe key |
| Normalizer.LoadData | on_search_dashboard.py:16-23 | the loaded table is the normalised table: dropna on date, outlet and app, then drop_duplicates on the dedupe key |
| Normalizer.DropNa | on_search_dashboard.py:20 | the rows kept by dropna are exactly the complete rows, in input order, as records |
| Normalizer.DropDuplicateKeys | on_search_dashboard.py:21-22 | the loop that remembers seen keys yields drop_duplicates(keep='first') on the dedupe key |
| Normalizer.DropIncompleteRows | on_search_dashboard.py:20 | every kept record is a complete input row, and every complete input row is kept |
| Normalizer.DropIncompleteOfRecords | on_search_dashboard.py:20 | rows that are already complete pass dropna unchanged |
| Normalizer.NormalizeSound | on_search_dashboard.py:18-22 | kept rows are complete input rows; no two share a dedupe key; every complete row's key is kept; each kept row is the first complete row with its key; kept rows keep input order |
| Normalizer.NormalizeIdempotent | on_search_dashboard.py:16-23 | normalising the normalised table again changes nothing |
| Normalizer.DedupeKeyInjective | on_search_dashboard.py:21 | with no '-' in outlet names, two keys are equal iff date, outlet and app are equal |
| Normalizer.DedupeKeyCollision | on_search_dashboard.py:21 | outlet "A-B" of app "C" and outlet "A" of app "B-C" on one day have the same key |
| Normalizer.SameKeyKeepsFirst | on_search_dashboard.py:22 | of two complete rows with one key, only the first survives, whatever their other columns |
| Normalizer.CollisionDropsRow | on_search_dashboard.py:21-22 | so the second of the two colliding rows is dropped, though its (outlet, app) pair differs |
| Dedupe.DropDuplicates | on_search_dashboard.py:22 | drop_duplicates never adds rows, and it returns an empty table only for an empty input |
| Seqs.Filter | on_search_dashboard.py:30-31 | a boolean-mask selection is no longer than the table, and every selected row passes the mask |
| Dedupe.FirstIndex | on_search_dashboard.py:22 | the position returned is the first row carrying the key, or the length when no row does |
| Dedupe.DropDuplicatesKeys | on_search_dashboard.py:22 | drop_duplicates keeps input rows only, leaves no repeated key and loses no key |
| Dedupe.DropDuplicatesKeepsFirst | on_search_dashboard.py:22 | each kept row is the first input row with its key |
| Dedupe.DropDuplicatesKeepsOrder | on_search_dashboard.py:22 | kept rows come in the order of their keys' first occurrences |
| Dedupe.DropDuplicatesOfUnique | on_search_dashboard.py:22 | a table with unique keys passes drop_duplicates unchanged |
| Records.Parse | on_search_dashboard.py:26 | strptime('%d-%m-%Y') on digits reads a two-digit day, a two-digit month and a four-digit year |
| Records.Format | on_search_dashboard.py:19 | strftime('%d-%m-%Y') gives ten characters with '-' at positions 2 and 5 |
| Records.ParseFormat | on_search_dashboard.py:19-26 | strptime('%d-%m-%Y') reads back the day that strftime printed |
| Records.FormatInjective | on_search_dashboard.py:19 | two days print alike iff they are the same day |
| Records.FormatIsDateString | on_search_dashboard.py:19 | every searched_date value is a well-formed date string |
| Records.SearchedDate | on_search_dashboard.py:19 | a searched_date value has ten characters with '-' at positions 2 and 5 |
| Records.Apps | on_search_dashboard.py:115 | the set of buyer apps of a table is empty iff the table has no rows |
| Records.Outlets | on_search_dashboard.py:114-117 | the set of outlet names of a table is empty iff the table has no rows |
| Records.OutletsOf | on_search_dashboard.py:32-33 | the distinct outlets of one app are among the table's outlets |
| Records.OutletsOfAbsentApp | on_search_dashboard.py:34 | an app that does not occur on a date has no outlets there (the fillna(0) case) |
| Records.OutletsOfPresentApp | on_search_dashboard.py:32-33 | an app that occurs on a date has at least one outlet there |
| PeriodSelector.Unique | on_search_dashboard.py:26 | unique() holds each value of the column once and nothing else |
| PeriodSelector.Earlier | on_search_dashboard.py:26 | the strptime sort key orders no date string before itself |
| PeriodSelector.LastTwo | on_search_dashboard.py:27 | dates[-2:] if len(dates) >= 2 else dates is the suffix of min(2, len(dates)) entries |
| PeriodSelector.GetLatestTwoDates | on_search_dashboard.py:25-27 | the result has min(2, number of distinct dates) entries; they are distinct dates of the table in chronological order; every other date is earlier than the first; every date but the last is earlier than the last |
| PeriodSelector.Insert | on_search_dashboard.py:26 | inserting a new date into a chronological list keeps it chronological and adds exactly that date |
| PeriodSelector.SortByDate | on_search_dashboard.py:26 | sorting distinct date strings by strptime gives a chronological list of the same dates |
| PeriodSelector.UniqueDates | on_search_dashboard.py:26 | unique() of the date column has no repeats and holds exactly the distinct dates |
| PeriodSelector.DateColumnValues | on_search_dashboard.py:26 | the searched_date column holds exactly the distinct dates |
| PeriodSelector.DistinctDatesAreDateStrings | on_search_dashboard.py:19-26 | every distinct date is a string strptime can read back |
| PeriodSelector.LastTwoOfChronological | on_search_dashboard.py:27 | dates[-2:] of a chronological list holds its two latest entries, and every other entry is earlier |
| PeriodSelector.EarlierTotal | on_search_dashboard.py:26 | two different date strings are ordered one way or the other |
| PeriodSelector.EarlierTransitive | on_search_dashboard.py:26 | chronological order is transitive |
| PeriodSelector.EarlierAsymmetric | on_search_dashboard.py:26 | chronological order is strict |
| PeriodSelector.OrderedPair | on_search_dashboard.py:26-27 | the chronological selection from two dates d1 before d2 is [d1, d2] |
| PeriodSelector.TwoDatesInOrder | on_search_dashboard.py:25-27 | with exactly two distinct dates, yesterday is the earlier one and today the later one |
| Coverage.OnDate | on_search_dashboard.py:30-31 | the rows of one date are no more than the table's rows |
| Coverage.OnDateRows | on_search_dashboard.py:30-31 | a row is selected for a date iff it is in the table and its searched_date is that date |
| Coverage.SplitByDate | on_search_dashboard.py:30-31 | df1 and df2 are the rows whose searched_date equals date1 and date2, in table order |
| Coverage.OutletCountsByApp | on_search_dashboard.py:32-33 | the group index is exactly the apps present, and each count is the app's number of distinct outlets |
| Coverage.GroupsStep | on_search_dashboard.py:32-33 | adding one row's outlet to its app's group keeps every group equal to that app's distinct outlets so far |
| Coverage.CombineCounts | on_search_dashboard.py:34-35 | one line per app in the given order, with both counts (0 where absent) and their difference |
| Coverage.BuyerAppSummary | on_search_dashboard.py:29-36 | per-date rows; one line per app present on either date, in strictly increasing app order; each line counts distinct outlets on both dates; Difference = today − yesterday |
| Coverage.DifferenceIsChange | on_search_dashboard.py:34-35 | an app absent on one date shows 0 there; Difference is negative iff the app lost outlets |
| MissingOutlets.OutletKey | on_search_dashboard.py:39-42 | the key is the outlet name, then '\|', then the app |
| MissingOutlets.KeyIn | on_search_dashboard.py:43-44 | isin selects exactly the rows of the table whose key lies in the set |
| MissingOutlets.KeySet | on_search_dashboard.py:39-40 | the key set is the set of outlet + "\|" + app strings of the day |
| MissingOutlets.OutletKeys | on_search_dashboard.py:39-40 | a day's key set is empty iff the day has no rows |
| MissingOutlets.SelectByKey | on_search_dashboard.py:43-44 | isin selects the rows whose key lies in the set, in order |
| MissingOutlets.GetMissingOutlets | on_search_dashboard.py:38-45 | only_in_1 is the rows of day 1 whose key is in key1 − key2, and symmetrically for day 2 |
| MissingOutlets.MissingOutletsSpec | on_search_dashboard.py:43-44 | a row is reported iff it belongs to its day and its key is absent on the other day, both ways; the two reports share no key |
| MissingOutlets.KeyInPreservesOrder | on_search_dashboard.py:43-44 | selection distributes over concatenation, so relative row order is kept |
| MissingOutlets.KeyAbsentIffPairAbsent | on_search_dashboard.py:39-42 | with no '\|' in outlet names, a key is absent iff no row has the same outlet and app |
| MissingOutlets.OutletKeyCollision | on_search_dashboard.py:39-44 | outlet "A\|B" of app "C" is not reported missing when day 2 has outlet "A" of app "B\|C" |
| Reasons.MessageText | on_search_dashboard.py:54 | str(msg) is "nan" iff the message is missing or is literally "nan", so the two cannot be told apart |
| Reasons.Classify | on_search_dashboard.py:55-68 | when no rule's pattern occurs in the message, the reason is "Other" |
| Reasons.ReasonOf | on_search_dashboard.py:55-68 | the chain always returns one of the seven labels |
| Reasons.ExtractReason | on_search_dashboard.py:53-68 | extract_reason always returns one of the seven labels |
| Reasons.ClassifyFirstMatch | on_search_dashboard.py:55-68 | first-match classification gives "Other" iff no pattern matches, and otherwise the reason of the first matching rule |
| Reasons.ChainIsClassify | on_search_dashboard.py:55-68 | the if/elif chain is first-match classification by the rule table in priority order |
| Reasons.ExtractReasonIsFirstMatch | on_search_dashboard.py:53-68 | extract_reason gives "Other" iff the lower-cased message matches no pattern, and otherwise the reason of the first matching rule |
| Reasons.ExtractReasonIgnoresCase | on_search_dashboard.py:54 | upper-casing a message does not change its reason |
| Reasons.ContainsNeedsLength | on_search_dashboard.py:55-66 | a message shorter than a pattern does not contain it |
| Reasons.MissingMessageIsOther | on_search_dashboard.py:54-68 | a missing message ("nan") is classified "Other" |
| Reasons.TimeoutWins | on_search_dashboard.py:55-60 | a message containing both "timeout" and "inventory" is a Timeout |
| NackSummary.IsNack | on_search_dashboard.py:71 | a row is a NACK iff its status is the four letters N, A, C, K in any mix of upper and lower case |
| NackSummary.NackRecords | on_search_dashboard.py:71-72 | nack_df is no longer than the day's table, and each of its rows is a NACK row carrying extract_reason of its message |
| NackSummary.SumCounts | on_search_dashboard.py:76 | the sum of non-negative counts is non-negative, and the sum of counts of at least 1 is at least the number of lines |
| NackSummary.GroupOutlets | on_search_dashboard.py:73 | an (app, reason) group's outlet set is empty iff no NACK row has that app and reason |
| NackSummary.PairLess | on_search_dashboard.py:73 | the (app, reason) sort order never puts a pair before itself |
| NackSummary.CollectNacks | on_search_dashboard.py:71-72 | nack_df is the NACK rows in order, each with the reason extract_reason gives its message |
| NackSummary.NackRecordsSpec | on_search_dashboard.py:71-72 | a row is in nack_df iff it is a row of the day whose upper-cased status is "NACK", with its extracted reason |
| NackSummary.ReasonLabelsSorted | on_search_dashboard.py:73 | the seven reasons are listed in ascending string order |
| NackSummary.DoneIsBefore | on_search_dashboard.py:73 | every group already visited sorts before the group being visited |
| NackSummary.GroupNonEmpty | on_search_dashboard.py:73 | an (app, reason) group occurs iff it has at least one outlet |
| NackSummary.VisitKeepsWalkInv | on_search_dashboard.py:73-75 | visiting one group keeps the summary numbered, ordered, counted and equal to the non-empty groups seen so far |
| NackSummary.NextAppKeepsWalkInv | on_search_dashboard.py:73 | finishing one app's reasons is starting the next app |
| NackSummary.WalkDone | on_search_dashboard.py:73 | after every app is visited, the summary's groups are exactly the NACK groups |
| NackSummary.GroupNacks | on_search_dashboard.py:73-75 | one line per (app, reason) group with NACK rows, strictly ordered by (app, reason), S.No running 1..n, Store Count = the group's distinct outlets |
| NackSummary.TotalRejected | on_search_dashboard.py:76 | the total is the sum of the Store Counts |
| NackSummary.NackSummary | on_search_dashboard.py:70-77 | nack_df, the grouped summary (order, numbering, groups, counts) and its total, together |
| NackSummary.TagCard | on_search_dashboard.py:73 | tagging a group's outlets with the group keeps their number |
| NackSummary.TriplesAddGroup | on_search_dashboard.py:73-76 | adding a new group adds exactly its outlets' triples, none already counted |
| NackSummary.SumCountsIsTriples | on_search_dashboard.py:73-76 | the total of an ordered, counted summary is the number of distinct (app, reason, outlet) triples of its groups |
| NackSummary.InjectiveImageCard | on_search_dashboard.py:76 | a map that is one-to-one on a set keeps the set's size |
| NackSummary.TriplesAsPairs | on_search_dashboard.py:70-76 | with one reason per rejected outlet of an app, the (app, reason, outlet) triples are as many as the (app, outlet) pairs |
| NackSummary.TotalRejectedIsPairs | on_search_dashboard.py:70-77 | with one reason per rejected outlet of an app, total_rejected is the number of distinct rejected (app, outlet) pairs |
| NackSummary.TotalRejectedIsTriples | on_search_dashboard.py:70-77 | total_rejected is the number of distinct (app, reason, outlet) triples among today's NACK rows |
| Colors.ColorForValue | on_search_dashboard.py:79-96 | the colour is one of black, green, orange and red, and it is black iff the value is 0 |
| Colors.ColorBands | on_search_dashboard.py:81-96 | the thresholds: red above 50, orange 21..50 and green otherwise when higher is bad; green above 1000, orange 501..1000 and red otherwise when higher is good |
| Colors.SeverityMonotone | on_search_dashboard.py:83-96 | among non-zero values, a larger value is never less alarming when higher is bad, and never more alarming when higher is good |
| Dashboard.Dropped | on_search_dashboard.py:119 | summary[summary['Difference'] < 0] holds exactly the lines whose Difference is negative |
| Dashboard.DroppedCountsApps | on_search_dashboard.py:119 | on a summary with one line per app, the number of lines with a negative Difference is the number of apps that lost outlets |
| Dashboard.DroppedAtMostApps | on_search_dashboard.py:119 | no more apps can drop than there are apps |
| Dashboard.NetChangeIsGainedMinusLost | on_search_dashboard.py:114-118 | today's stores minus yesterday's stores equals stores gained minus stores lost |
| Dashboard.Compare | on_search_dashboard.py:109-119 | the tables of both dates, the coverage comparison, the missing-store lists, the NACK summary and the six KPI figures, as ReportOf states them |
| Dashboard.AnalyzeTable | on_search_dashboard.py:100-119 | on the loaded table: halts with the one-date message iff it has fewer than two distinct dates; otherwise compares the two latest dates, the earlier one as yesterday |
| Dashboard.Analyze | on_search_dashboard.py:98-119 | halts with the one-date message iff the normalised table has fewer than two distinct dates; otherwise compares the two latest dates, the earlier one as yesterday |
| Strings.LowerOfUpper | on_search_dashboard.py:54 | lower-casing an upper-cased string equals lower-casing the string |
| Strings.Lower | on_search_dashboard.py:54 | lower() keeps the length and leaves no upper-case letter A-Z |
| Strings.Upper | on_search_dashboard.py:71 | upper() keeps the length and leaves no lower-case letter a-z |
| Strings.Contains | on_search_dashboard.py:55-66 | `t in s` requires t to be no longer than s, and the empty string is in every string |
| Strings.StrLess | on_search_dashboard.py:32-34 | Python string order never puts a string before itself, and a proper prefix comes before the longer string |
| Strings.ContainsAt | on_search_dashboard.py:55-66 | `t in s` holds iff t occurs in s at some position |
| Strings.StrLessTransitive | on_search_dashboard.py:32-33 | Python string order is transitive |
| Strings.StrLessTotal | on_search_dashboard.py:32-33 | two different strings are ordered one way or the other |
| Strings.InsertSorted | on_search_dashboard.py:32-34 | inserting a key into the sorted index keeps it strictly sorted and adds exactly that key |
| Strings.SortedKeys | on_search_dashboard.py:32-34 | the group index holds every key exactly once, in ascending string order |
| Strings.SplitAtSeparator | on_search_dashboard.py:21-42 | a1 + sep + b1 equals a2 + sep + b2 with no sep in a1 or a2 iff a1 = a2 and b1 = b2 |
| Seqs.FilterMembership | on_search_dashboard.py:30-31 | a row is selected by a mask iff it is in the table and passes the mask |
| Seqs.FilterConcat | on_search_dashboard.py:43-44 | mask selection distributes over concatenation |
| Scenarios.SheetNormalizes | on_search_dashboard.py:16-23 | the example sheet (A of app X on 01-06-2024; A and B on 02-06-2024) is complete and has no repeated key, so it loads unchanged |
| Scenarios.SheetPeriod | on_search_dashboard.py:25-27 | its dates are 01-06-2024 (yesterday) and 02-06-2024 (today) |
| Scenarios.SheetYesterday | on_search_dashboard.py:30 | yesterday's rows of the example sheet are A's row only |
| Scenarios.SheetToday | on_search_dashboard.py:31 | today's rows are A's and B's |
| Scenarios.SheetOutletCounts | on_search_dashboard.py:32-33 | app X has one distinct outlet yesterday and two today |
| Scenarios.SheetCoverage | on_search_dashboard.py:29-35 | yesterday holds A and today A and B, so app X goes from 1 outlet to 2 |
| Scenarios.SheetMissing | on_search_dashboard.py:38-45 | B is new today and nothing from yesterday is missing |
| Scenarios.RequestTimeoutIsTimeout | on_search_dashboard.py:53-56 | "request timeout" is classified Timeout |
| Scenarios.SheetNacks | on_search_dashboard.py:70-73 | today's only NACK is A's timeout, giving one (X, Timeout) group of one store |
| Scenarios.SheetNackGroups | on_search_dashboard.py:73 | the one NACK row forms one (X, Timeout) group whose only outlet is A |
| Scenarios.SheetReportSummary | on_search_dashboard.py:109 | for the example's two dates, yesterday's table is A's row, today's is A's and B's, and the summary is the single line (X, 1, 2, +1) |
| Scenarios.SheetReportNacks | on_search_dashboard.py:70-77 | today's NACK table is A's row with reason Timeout; the NACK summary is the single line (1, X, Timeout, 1), totalling 1 |
| Scenarios.SheetReportKpis | on_search_dashboard.py:109-119 | nothing is missing from yesterday, B is new today, and the tiles read 2 stores today, 1 yesterday, 1 app, 1 NACK, change +1, 0 dropped apps |
| Scenarios.SheetAnalysis | on_search_dashboard.py:98-119 | any outcome meeting the page pipeline's contract on the example sheet is the analysis of 01-06-2024 against 02-06-2024 with that summary line, NACK line, missing-store lists and tiles |

## Left out

- The Streamlit page itself is not modelled: page setup, title, uploader,
  success and error banners, metric tiles, tables and download buttons
  (lines 1-13 and 121-152). It is presentation only. `Dashboard.Analyze`
  returns what the page would show, and `Halted` stands for `st.error`
  followed by `st.stop`.
- `pd.read_excel`, `st.cache_data` and `to_excel` (lines 15-17 and 47-51) are
  not modelled. They are file I/O and library calls, so the sheet arrives as
  a sequence of rows.
- `pd.to_datetime(errors='coerce')` is not modelled, and neither are the
  time of day or pandas' other timestamp formats. The parse result is given
  as an optional calendar date. Years are limited to pandas' timestamp
  range (1677-2262), so `%Y` always prints four digits. Day-month validity
  (for example 31 February) is left to that parser.
- Casing is ASCII-only (`Lower`, `Upper`), because Python's full Unicode
  case mapping is out of scope. Matching is exact code-point matching.
- Cell values are strings or missing. Numeric outlet names, apps or messages
  are not modelled, so neither is `str()` of them. A missing message is the
  string `"nan"`.
- The `key` column that `get_missing_outlets` writes into its argument
  tables (lines 41-42) is not modelled. Neither is pandas' copy-versus-view
  behaviour. Neither affects the returned rows.
- The added columns (`searched_date`, `dedupe_key`, `Reason`) are not
  stored. Records carry the fields the rules read, and the columns are
  recomputed from them (`SearchedDate`, `DedupeKey`, `NackRecord.reason`).
- NackSummary.NackSummary: `str.upper()` at line 71 raises AttributeError when
  the Status column holds no strings at all, for example when every status
  cell is empty and pandas reads the column as float NaN. The model treats
  each missing status as "not a NACK" instead. It returns an empty summary
  with total 0 where the page would crash, and `Dashboard.Analyze` returns a
  report there rather than an error.
- Coverage.OnDate: its own contract states only that no rows are added.
  Which rows it keeps is stated once, by `Coverage.OnDateRows`. A
  membership postcondition on the function itself would be instantiated at
  every use inside `Dashboard.ReportOf` and make those proofs far costlier.
- Colors.ColorForValue: integers only. The source would also accept floats,
  but the function is never called with one.
- Coverage.BuyerAppSummary: the comparison is keyed by app. It does not model
  the DataFrame's two columns being named after the dates. It also leaves
  out the `astype(int)` conversion, since the counts are already integers.
