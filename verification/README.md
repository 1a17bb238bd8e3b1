# Bike-share trip statistics, modelled in Dafny

This project models the analysis core of a small bike-share explorer
(`bikeshare_2.py`). The user picks a city (Chicago, New York or Washington),
an optional month (Jan to Jun) and an optional weekday. The program keeps
the city's trips that match. Over that selection it reports:

- the most common month, weekday and start hour;
- the most common start station, end station and route;
- the total and mean trip duration;
- the number of trips per user type, and, except for Washington, per gender,
  with the earliest, latest and most common birth year.

It then lets the user page through the raw rows five at a time.

Modules, leaf first:

- `Wrappers` (`wrappers.dfy`): `Option` for blank cells and `Result` for
  computations the program would abort.
- `Seqs` (`seqs.dfy`): occurrence count, first index (`list.index`),
  order-preserving subsequence, sum, min and max.
- `Mode` (`mode.dfy`): the most common value of a column.
- `Groups` (`groups.dfy`): grouped counts (`groupby(key).count()`).
- `Trips` (`trips.dfy`): the trip record, the cities, the column views and
  the route string `start + " --> " + end`.
- `Selection` (`selection.dfy`): month and weekday selectors and the
  narrowing done by `load_data`.
- `Stats` (`stats.dfy`): the four statistic groups and the whole report.
- `Paging` (`paging.dfy`): the five-row pager of `main`.

A trip carries its already-derived month, weekday and hour as integers. It
also holds the duration in whole seconds, both station names and the user
type. Gender and birth year are optional, because a cell can be blank and
Washington has neither column.

Where the source has no guard, the single statistics take a precondition.
`mode()[0]` on an empty column raises: on an empty selection at
bikeshare_2.py:105, and on a column of blank birth years at line 186.
pandas' `min()`, `max()` and `mean()` return NaN on such a column instead of
raising. So `TimeStatsOf`, `StationStatsOf` and
`DurationStatsOf` require a non-empty selection. `UserStatsOf` requires a
filled birth year whenever the city records birth years. `Analyze` is total
and returns `Failure(EmptySelection)` or `Failure(NoBirthYears)` exactly
where the program would stop with an exception.

Modes break ties by a stated rule: the value whose first occurrence comes
first in load order wins. For example, [3, 3, 4, 4] gives 3. The route mode
is taken over the joined strings, as in the program. The join is not
injective in general: the routes ("p", "p --> p") and ("p --> p", "p") are
the same string. `RouteCollision` shows this input. When no start station
name contains `>`, the route string determines both stations, and the
route mode equals the join of the most common (start, end) pair.

## Model

| member | source | states |
|---|---|---|
| `Selection.MonthNumber` | bikeshare_2.py:85-86 | a month name maps to its list position plus one, a number in 1..6 that indexes back to the same name |
| `Selection.MonthNumberInjective` | bikeshare_2.py:85-86 | two different month names never get the same month number |
| `Selection.MonthNumberExamples` | bikeshare_2.py:85-86 | jan, mar and jun map to 1, 3 and 6 |
| `Selection.DayNumber` | bikeshare_2.py:92 | a weekday answer "0".."6" converts to the integer 0..6 that it spells |
| `Selection.SpecOfAnswers` | bikeshare_2.py:83-93 | the answer "none" switches a dimension off; any other answer becomes a month in 1..6 or a weekday in 0..6 that corresponds to the answer |
| `Selection.Select` | bikeshare_2.py:88-93 | the selection holds only matching records, holds every matching record of the input and nothing else, is no longer than the input, and keeps the input order |
| `Selection.SelectCount` | bikeshare_2.py:88-93 | a matching record occurs in the selection as often as in the input; a non-matching one never occurs |
| `Selection.SelectAppend` | bikeshare_2.py:88-93 | selecting from a concatenation gives the concatenation of the selections, so relative order is preserved |
| `Selection.SelectNone` | bikeshare_2.py:88-93 | a filter that matches no record yields an empty selection |
| `Selection.SelectAllIsIdentity` | bikeshare_2.py:83-94 | with no month and no weekday selector, every record is kept unchanged |
| `Selection.SelectThenSelect` | bikeshare_2.py:88-93 | the month mask followed by the weekday mask keeps exactly the records matching both |
| `Selection.LoadFilter` | bikeshare_2.py:83-94 | the month mask then the weekday mask of `load_data` equals one selection by both optional selectors, and is the identity when both are "none" |
| `Trips.CityOfAnswer` | bikeshare_2.py:170-177 | the validated city answer selects the city; only "washington" lacks demographic columns |
| `Seqs.IndexOf` | bikeshare_2.py:86 | `list.index` returns the first position holding the value |
| `Mode.ModeIndex` | bikeshare_2.py:105 | on a non-empty column, the position returned holds a value of maximal count, and every earlier position holds a strictly less frequent value |
| `Mode.ModeOf` | bikeshare_2.py:105 | the most common value occurs in the column, no value occurs more often, and no equally frequent value occurs earlier |
| `Mode.FirstModeIndexUnique` | bikeshare_2.py:105 | the tie-break rule determines the mode: only one position is the first of maximal count |
| `Mode.TieBreakExample` | bikeshare_2.py:105 | the column [3, 3, 4, 4] has mode 3 |
| `Mode.CountImage` | bikeshare_2.py:137-138 | if no other value shares a value's image, the image occurs as often in the mapped column as the value in the original |
| `Mode.ModeOfInjectiveImage` | bikeshare_2.py:137-138 | under a map that is injective on the column, the mode of the images is the image of the mode |
| `Stats.TimeStatsOf` | bikeshare_2.py:104-115 | month, weekday and hour reported are modes of their columns in the selection |
| `Stats.StationStatsOf` | bikeshare_2.py:128-138 | start station, end station and route reported are modes of their columns, the route over the joined strings |
| `Trips.Route` | bikeshare_2.py:137 | a route is the start name, the separator and the end name, so both names can be read back by position |
| `Trips.FirstArrow` | bikeshare_2.py:137 | if the start name has no '>', the first '>' of the route is the one in the separator |
| `Trips.RouteInjective` | bikeshare_2.py:137 | if the start names have no '>', equal route strings have equal start and end stations |
| `Trips.RouteReversalDistinct` | bikeshare_2.py:137 | for different '>'-free station names A and B, route A to B differs from route B to A |
| `Trips.RouteCollision` | bikeshare_2.py:137 | without that restriction, the routes ("p", "p --> p") and ("p --> p", "p") are the same string |
| `Stats.RouteModeIsPairMode` | bikeshare_2.py:136-138 | if no start name has '>', the route mode is the join of the most common (start, end) pair |
| `Seqs.Min` | bikeshare_2.py:184 | the earliest birth year occurs in the column and is at most every entry |
| `Seqs.Max` | bikeshare_2.py:185 | the latest birth year occurs in the column and is at least every entry |
| `Seqs.SumAppend` | bikeshare_2.py:152 | the total of a concatenation is the sum of the totals |
| `Seqs.SumBounds` | bikeshare_2.py:152-156 | a total lies between the count times the least entry and the count times the greatest |
| `Stats.DurationStatsOf` | bikeshare_2.py:151-157 | the total is the sum of the durations, the count is the number of trips, the exact mean lies between the shortest and longest trip, and the reported mean is within half a second of it, an exact half going to the even neighbour as Python's `round` does |
| `Stats.RoundHalfEven` | bikeshare_2.py:153-157 | `round` gives the nearest integer to num/den, and a halfway value goes to the even neighbour |
| `Stats.RoundHalfEvenExamples` | bikeshare_2.py:157 | 60/3 rounds to 20, 5/2 to 2, 7/2 to 4 and 7/3 to 2 |
| `Stats.DurationExample` | bikeshare_2.py:151-157 | durations 10, 20 and 30 total 60, with exact and reported mean 20 |
| `Stats.DurationTieExample` | bikeshare_2.py:156-157 | mean durations of exactly 1.5 and 2.5 seconds are both reported as 2 |
| `Groups.Distinct` | bikeshare_2.py:172 | the group keys are the values of the column, each listed once |
| `Groups.CountOfDistinct` | bikeshare_2.py:172 | a key listed once among the distinct keys is counted once |
| `Groups.CountsTotalIsLength` | bikeshare_2.py:172 | counting each record under a covering list of distinct keys counts every record exactly once |
| `Groups.GroupCounts` | bikeshare_2.py:172 | keys are distinct and exactly the values present; each count is the number of records with that key and is positive; the counts sum to the number of records |
| `Trips.GenderColumn` | bikeshare_2.py:180 | the gender groups count filled cells only: their total is the number of records with a gender, and a gender's count is the number of records with that gender |
| `Trips.BirthYearColumn` | bikeshare_2.py:184-186 | the birth years considered are exactly the filled birth-year cells of the selection, each year occurring as often as trips carry it |
| `Stats.UserTypeCounts` | bikeshare_2.py:172 | one group per user type present, each holding the number of trips of that type, the counts summing to the number of trips |
| `Stats.DemographicsOf` | bikeshare_2.py:180-186 | gender groups have distinct keys, one for every filled gender, each counting the trips with that gender, summing to the trips carrying one; birth-year min, mode and max occur among the filled years, with min <= mode <= max and min and max bounding every year |
| `Stats.UserStatsOf` | bikeshare_2.py:163-189 | user-type counts are grouped counts summing to the number of trips, with a group for every user type present; demographics are absent exactly for Washington; otherwise gender groups have distinct keys, one per filled gender, each counting the trips with that gender, and the birth-year min, mode and max occur in the data with min <= mode <= max, min and max bounding every year |
| `Stats.Analyze` | bikeshare_2.py:207-213 | a report exists exactly when the selection is non-empty and, in a city with demographics, has a birth year; otherwise the error names the reason; a report holds the month, weekday, hour, start, end and route modes, the total, count, mean bounds and the rounded mean of the durations (within one half, an exact half going to the even neighbour), the user-type breakdown, and the demographic breakdown exactly when the city is not Washington |
| `Stats.EmptySelectionReported` | bikeshare_2.py:207-213 | a filter that matches no record yields the empty-selection outcome |
| `Paging.Page` | bikeshare_2.py:221-228 | a page is the slice of rows from the cursor, clipped at the end: at most five rows, each the row at its position |
| `Paging.PageIsSlice` | bikeshare_2.py:221-228 | a page is the slice from the cursor to five rows further, both ends clipped to the number of rows |
| `Paging.Remaining` | bikeshare_2.py:225 | the count of rows left is the number of rows past the cursor, and zero once the cursor is past the end |
| `Paging.NextPage` | bikeshare_2.py:221-229 | a step shows the page at the cursor, advances the cursor by exactly five, and reports the rows left after it |
| `Paging.ShowFromIsSlice` | bikeshare_2.py:221-229 | k successive pages from a cursor concatenate to the contiguous slice of the next 5k rows, clipped |
| `Paging.PagesFormPrefix` | bikeshare_2.py:215-229 | the first k pages form the prefix of the first 5k rows, and the clamped count left is the number of rows not yet shown |
| `Paging.TwelveRowsExample` | bikeshare_2.py:215-229 | twelve rows page as 5, 5, 2 and 0 rows with 7, 2, 0 and 0 left, while the printed count after the third page is -3 |
| `Paging.RemainingAsWritten` | bikeshare_2.py:225 | the printed count `n - c` equals the rows left while the cursor is inside the data, and is negative exactly when the cursor has passed the end |
| `Paging.RemainingAsWrittenGoesNegative` | bikeshare_2.py:225 | once the cursor passes the last row, the printed count is negative although no row remains |

## Left out

- Keyboard prompting, answer validation and the restart loop
  (bikeshare_2.py:11-62, 194-203, 233-235) are interactive I/O. The
  selectors take answers the prompt has already validated.
- Reading the CSV file named in `CITY_DATA` and parsing timestamps
  (bikeshare_2.py:7-9, 76-81, 113-114) are calls into pandas. So is the
  error raised on an unparsable timestamp. Month, weekday and hour are
  given as integer fields of each trip.
- Console output, the `calendar` month and day names, and `time.time()`
  timing are display and instrumentation only.
- Weekday naming is not modelled. The prompt says Sunday = 0, pandas
  counts from Monday = 0, and the display subtracts one. The weekday is an
  integer compared by equality.
- `Mode.ModeOf`: pandas' `mode()[0]` returns the least of the tied values,
  an internal of the library. The model uses the first-occurrence rule
  instead. Membership and maximality hold under both rules.
- Durations and birth years are integers, not floats. The mean is kept
  exactly as total / count, so floating-point error is not modelled.
  Rounding follows Python's round-half-to-even.
- The order of displayed groups is not modelled. pandas lists groups by
  sorted key; the model lists them in order of first appearance.
- `Trips.RouteReversalDistinct`: holds only for station names without `>`.
  `Trips.RouteCollision` shows that the unrestricted property fails.
- `Stats.Analyze`: an empty selection or a missing birth year ends the
  program with an exception. The model returns an explicit
  `Failure` instead of modelling the crash.
- The yes/no answers that drive the pager are not modelled. A page step is
  one "yes". The rows printed on screen are the page rows.

## Findings

| source | as written | input that shows it | evidently intended | confidence | as-written member | corrected member |
|---|---|---|---|---|---|---|
| bikeshare_2.py:225 | prints `total_rows - rows_displayed`, which is not clamped at zero | 12 rows, after the third page: the cursor is 15 and the message says "-3 more lines" | the number of rows not yet shown, 0 once all are shown | high, not executed | `Paging.RemainingAsWritten` (shown by `Paging.RemainingAsWrittenGoesNegative`, `Paging.TwelveRowsExample`) | `Paging.Remaining`, used by `Paging.NextPage`; `Paging.PagesFormPrefix` proves it equals the rows not yet shown |
