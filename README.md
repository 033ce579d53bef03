# Stock data dashboard: cleaning and date-range pipeline

This project models the data pipeline of a small stock-price dashboard
(`app.py`). The dashboard loads a table of price records with the columns
`Timestamp, Open, High, Low, Close, Volume` and cleans it in place:

1. It converts the timestamp column to date-times (line 10). One
   unparseable timestamp aborts the whole load.
2. It coerces the five numeric columns to numbers (line 13). Unparseable
   values become missing.
3. It drops every row that has a missing value (line 16).
4. It sorts the rows by timestamp (line 19).

The dashboard then offers a default date range, from the first date in the
table to the last (line 27). It shows the rows whose calendar date lies
inclusively within the chosen range (line 28).

Layout:

- `wrappers.dfy`: module `Wrappers`, with `Option` and `Result`.
- `seqs.dfy`: module `Seqs`. It has `Keep`, an order-preserving selection
  by a predicate, which both `dropna` and the date mask use. It also has a
  reference definition of subsequence, and the facts about `Keep` proved
  once.
- `cleaning.dfy`: module `Cleaning`, covering lines 7-19.
  - A cell is `Text | Time | Number | NA`, as a pandas cell can be: text
    read from the file, a date-time, a number, or NaN/NaT.
  - A date-time is a count of nanoseconds since the epoch, as pandas
    stores it.
  - Each cleaning step has two parts: a pure function (`ConvertTimestamps`,
    `CoerceNumeric`, `DropNa`), and a method of the class `Frame`, which
    plays the role of the table `df`. The method updates `rows` in a loop
    and is proved equal to that function.
  - The sort is a non-decreasing permutation, built by insertion.
  - `Load` runs the four steps on a fresh `Frame`.
- `range_filter.dfy`: module `RangeFilter`, covering lines 27-28.
  - A timestamp's date is `ts / 86_400_000_000_000`. Dafny's division
    floors for a positive divisor, so this is the calendar day for
    timestamps before 1970 too.
  - The mask is `Keep` with the predicate `InRange`. A row with a missing
    timestamp compares false.
  - The default range is the dates of the smallest and largest timestamp.

The parsers are parameters:
- The date-time parser has type `string -> TimeText`. It returns a
  date-time, `NotATime` for the texts pandas reads as NaT (such as "NaT"),
  or `Invalid`.
- The number parser has type `string -> Option<int>`. `None` means the text
  does not parse.

Points of app.py that the model makes explicit:
- Line 10 passes no `errors='coerce'` to `pd.to_datetime`. So one
  unparseable timestamp fails the whole load instead of dropping its row.
  `MalformedTimestampAbortsLoad` shows this on a three-row table.
- A missing timestamp cell, or the text "NaT", is different. It becomes NaT
  without an error, and line 16 later drops the row.
- A number in the timestamp column is read with pandas' default unit,
  nanoseconds.
- Line 19 calls `sort_values` with pandas' default algorithm, which is not
  stable. The model says nothing about the order of rows with equal
  timestamps.

## Model

| member | source | states |
|---|---|---|
| Cleaning.ToDatetime | app.py:10 | Converting one cell fails exactly when it is text the parser rejects. Parsed text gives its date-time, a date-time is kept, and a number is read as nanoseconds. The result is NaT exactly when the cell was missing or was a NaT text. |
| Cleaning.ConvertTimestamps | app.py:10 | The column conversion succeeds exactly when every timestamp cell converts. On success the table keeps its length, and each row changes only in its timestamp, which is that cell's conversion. |
| Cleaning.ConvertTimestampsFirstError | app.py:10 | When a timestamp fails to parse and all earlier ones parse, the entire table fails with that timestamp's text as the error. |
| Cleaning.MalformedTimestampAbortsLoad | app.py:10 | For a table with two good rows and one row whose timestamp is "bad", the load fails as a whole instead of dropping that row. |
| Cleaning.Frame.ParseTimestampColumn | app.py:10 | The in-place column conversion leaves the table equal to `ConvertTimestamps` of the old table. On failure it returns the same error and leaves the table unchanged. |
| Cleaning.ToNumeric | app.py:13 | Coercing one cell gives a number or NA. It gives NA exactly when the cell was missing or was text that does not parse. A parsed text gives its value, a number is kept, and a date-time gives its nanosecond count. |
| Cleaning.CoerceNumeric | app.py:13 | Coercing the table keeps its length and every timestamp. Afterwards every numeric cell holds a number or NA. |
| Cleaning.Frame.CoerceNumericColumns | app.py:13 | The in-place coercion leaves the table equal to `CoerceNumeric` of the old table. |
| Cleaning.DropNa | app.py:16 | `dropna` adds no row and alters none. A row with a missing value is gone, and any other row keeps all its occurrences. The survivors are a subsequence of the table, so their order is preserved. |
| Cleaning.DropNaCount | app.py:16 | The number of rows dropped equals the number of rows with a missing value. |
| Cleaning.DropNaComplete | app.py:10-16 | After the two conversions, every row that survives `dropna` has a date-time and five numbers. |
| Cleaning.Frame.DropMissing | app.py:16 | The in-place `dropna` leaves the table equal to `DropNa` of the old table. |
| Cleaning.Clean | app.py:10-16 | Cleaning fails exactly when some timestamp is text the parser rejects. On success every remaining row is complete, and there are no more rows than the input had. |
| Cleaning.CleanKeepsExactlySurvivors | app.py:10-16 | When the load does not abort, the cleaned form of an input row is in the result exactly when the input row's timestamp parses to a date-time and its five numeric cells parse. The result is a subsequence of the converted table. |
| Cleaning.Insert | app.py:19 | Inserting a row into a table sorted by timestamp gives a sorted table holding the old rows plus that row. |
| Cleaning.Frame.SortByTimestamp | app.py:19 | After the sort the table is non-decreasing by timestamp and is a permutation of the old table. |
| Cleaning.Frame.constructor | app.py:7 | The frame holds the rows as read. |
| Cleaning.Load | app.py:7-19 | The load fails exactly when cleaning fails, with the same error. Otherwise the result is sorted by timestamp, is a permutation of the cleaned rows, and has only complete rows. The cleaned form of an input row is in it exactly when that row survives. |
| RangeFilter.Day | app.py:28 | The date of a timestamp is the day whose nanoseconds contain it. |
| RangeFilter.InRangeWholeDays | app.py:28 | A row is in range exactly when its timestamp lies between midnight starting the start date and midnight ending the end date. Rows at any time on the first or last day are included. |
| RangeFilter.SelectRange | app.py:28 | The view keeps exactly the rows in range, each as often as in the table, and nothing else. Membership holds in both directions. The view is a subsequence of the table, so a sorted table gives a sorted view. |
| RangeFilter.SelectRangeInverted | app.py:28 | If the start date is after the end date, the view is empty. |
| RangeFilter.SelectRangeIdempotent | app.py:28 | Filtering the view again with the same range changes nothing. |
| RangeFilter.MinStamp | app.py:27 | The smallest timestamp occurs in the table and is at most every timestamp. |
| RangeFilter.MaxStamp | app.py:27 | The largest timestamp occurs in the table and is at least every timestamp. |
| RangeFilter.DefaultRange | app.py:27 | The default range runs from the earliest date in the table to the latest. Both dates occur in the table, and every row's date lies between them. |
| RangeFilter.DefaultRangeSelectsAll | app.py:27-28 | With the default range, the view is the whole table. |

## Left out

- Reading the file (app.py:6-7) is file I/O. The model starts from the
  table `read_csv` produced. Cells are text, numbers where it inferred a
  numeric column, or missing for empty fields.
- Parsing date-time and number strings is pandas' own logic. Both parsers
  are parameters. Prices are integers, so there is no floating point.
- Only the six columns of the file header are modelled. A file with extra
  columns would also have those checked by `dropna`.
- Cleaning.Frame.SortByTimestamp: requires every timestamp to be a
  date-time. In app.py the sort always follows `dropna`, so pandas'
  placement of NaT is never reached. Rows with equal timestamps may end up
  in either order.
- RangeFilter.DefaultRange: requires a non-empty table of date-times. On an
  empty table, line 27 takes the minimum and maximum of no timestamps.
  Both are NaT, their `.date()` is NaT, and those NaT values are passed to
  the date widget. The model has no date value for NaT.
- Time zones are not modelled. Timestamps are plain counts of nanoseconds.
- The page setup, sidebar, tabs, table, charts and success banner
  (app.py:22-58) are presentation. The date widget can return a single
  date during a selection, so that the second index at line 28 fails.
  That is widget behaviour.
