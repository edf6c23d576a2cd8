# Scheduled-query statistics: a Dafny model

This project models the logic behind Redash's two "Schedule" pages and the
`/api/schedule-stats` handler:

- **Next-24-hours chart** (`processScheduleData` in `Schedule.jsx`). It builds
  24 hourly buckets keyed by the absolute hours `now .. now+23` and moves each
  scheduled query to the bucket `floor((interval / 3600) % 24)` hours ahead. The
  buckets are then sorted by hour of day. The page's fetch has three outcomes:
  spinner, error alert or chart.
- **Range statistics page** (`SchedulePage.jsx`):
  - the total, average and peak of the per-day counts;
  - the count column's sorter;
  - the guard on the date-range picker;
  - the fetch, which empties the records on failure. As written it stores
    `response.data`, which the list the handler sends does not have (see
    Findings). The model keeps that version apart and otherwise stores the list
    received.
- **Per-day counts on the server** (`ScheduleStatsResource.get` in
  `schedule.py`).
  - The date arguments default to the 31 days ending today. A malformed date
    gets status 400.
  - The handler walks the inclusive day range. For each day it counts the
    queries that are not archived, have a schedule, were created on or before
    that calendar day and whose `until` (if usable) lies strictly after it. The
    SQL as written compares the creation timestamp with midnight instead (see
    Findings); the model counts by creation day.

Time is plain numbers:
- the chart works on absolute local hour numbers, with hour of day `now % 24`;
- the server works on Python `date` values, which the model carries as
  (year, month, day) triples in years 1..9999 with CPython's ordinal numbering;
- the range page works on day ordinals.

Parsing and printing `YYYY-MM-DD` follow CPython's `strptime`/`strftime` for that
format. The parser accepts the unpadded `2024-5-7` and the space-padded day
`2024-05- 7`, as CPython does.

Modules, one per file:

| module | file | contents |
|---|---|---|
| `Wrappers` | wrappers.dfy | `Option` |
| `Digits` | digits.dfy | digit characters, two- and four-digit zero padding |
| `Sorting` | sorting.dfy | comparator `key(a) - key(b)` and a stable insertion sort by key |
| `Counting` | counting.dfy | `CountWhere`: the number of positions satisfying a predicate, the reference for every count |
| `Calendar` | calendar.dfy | Python `date`: validity, ordinal, inverse ordinal, `+ timedelta(days=k)`, comparison |
| `IsoDate` | iso_date.dfy | `%Y-%m-%d` formatting and parsing |
| `Queries` | queries.dfy | the saved-query record: JSON `schedule` object, creation instant, archived flag |
| `HourlyBuckets` | hourly_buckets.dfy | `processScheduleData` |
| `ScheduleView` | schedule_view.dfy | the Schedule page's loading / error / chart state |
| `ScheduleStats` | schedule_stats.dfy | `ScheduleStatsResource.get` |
| `RangeStats` | range_stats.dfy | the statistics page |

Two edge cases of the code:
- The test `query.schedule && query.schedule.interval` (Schedule.jsx:89) lets
  negative intervals through. A negative interval lands `floor` of a negative
  remainder hours *back*. That key is outside the 24 buckets unless the interval
  is a multiple of a day (`HourlyBuckets.NextRunOffset`).
- Stepping past 9999-12-31 raises `OverflowError`, which the handler does not
  catch. So a range that reaches 9999-12-31 gets status 500, and so does the
  default window on 0001-01-30 or earlier. The model returns `Overflow` for both.

## Model

| member | source | states |
|---|---|---|
| HourlyBuckets.HourOfDay | client/app/pages/schedule/Schedule.jsx:82 | the `hour` of a bucket (`getHours()`) is always in 0..23 |
| HourlyBuckets.Label | client/app/pages/schedule/Schedule.jsx:84 | the label is two digits reading back as the hour, followed by `:00` |
| HourlyBuckets.EmptyBuckets | client/app/pages/schedule/Schedule.jsx:77-86 | the initial buckets are keyed by exactly the 24 absolute hours now..now+23 |
| HourlyBuckets.TallyAll | client/app/pages/schedule/Schedule.jsx:88-102 | visiting the queries adds no bucket and removes none |
| HourlyBuckets.NextRunOffset | client/app/pages/schedule/Schedule.jsx:92-94 | for a non-negative interval s the JavaScript float offset `Math.floor((s/3600) % 24)` equals `(s div 3600) mod 24`, in 0..23; for a negative one the truncating remainder makes it fall in -24..0, and it is 0 exactly when the interval is a whole number of days |
| HourlyBuckets.NextRunOffsetExamples | client/app/pages/schedule/Schedule.jsx:92-94 | 3600 and 90000 seconds land 1 hour ahead, 3599 and -86400 in the current hour, -3600 one hour back |
| HourlyBuckets.TallyAllContent | client/app/pages/schedule/Schedule.jsx:88-102 | after the loop, the bucket `offset` hours ahead holds its hour, its label, and the number of queries whose next run lands `offset` hours ahead |
| HourlyBuckets.InsertionOrderHours | client/app/pages/schedule/Schedule.jsx:77-86 | `Object.values` lists the buckets in insertion order: the i-th has hour `(now + i) mod 24` |
| HourlyBuckets.ChartHourIsIndex | client/app/pages/schedule/Schedule.jsx:104 | sorting the 24 buckets by `a.hour - b.hour` gives 24 buckets, each taken from the 24, with hour k at position k |
| HourlyBuckets.ProcessScheduleData | client/app/pages/schedule/Schedule.jsx:73-105 | the result has 24 buckets; position k is the bucket for hour k, with label `kk:00`, counting the scheduled queries whose next run is `(k - now) mod 24` hours ahead, as an independent count over the input |
| HourlyBuckets.ProcessScheduleDataNoQueries | client/app/pages/schedule/Schedule.jsx:77-86 | with no queries every bucket counts 0 |
| HourlyBuckets.UnscheduledQueryIgnored | client/app/pages/schedule/Schedule.jsx:89 | a query without a schedule or with a falsy interval changes no bucket |
| HourlyBuckets.ChartIsRotation | client/app/pages/schedule/Schedule.jsx:104 | sorting by hour of day rotates the chronological list, so after midnight's split the next day's early hours come first |
| HourlyBuckets.ChartTotal | client/app/pages/schedule/Schedule.jsx:96-100 | the counts sum to the number of queries whose key falls inside the 24 hours, which is at most the number of scheduled queries: each query adds at most one |
| HourlyBuckets.ChartTotalPositive | client/app/pages/schedule/Schedule.jsx:88-100 | when every interval is positive, every scheduled query is counted exactly once |
| ScheduleView.ScheduledOnly | client/app/pages/schedule/Schedule.jsx:120 | the filter keeps each query with a schedule and a truthy interval exactly as often as the input holds it, and no other query |
| ScheduleView.ScheduledOnlyMembers | client/app/pages/schedule/Schedule.jsx:120 | a query is in the filtered list exactly when it is in the input and scheduled |
| ScheduleView.ScheduledOnlyInvisible | client/app/pages/schedule/Schedule.jsx:120-122 | filtering before bucketing leaves the chart unchanged |
| ScheduleView.BeginFetch | client/app/pages/schedule/Schedule.jsx:109-110 | a fetch starts with the spinner shown, the error set to null and the chart data kept |
| ScheduleView.FinishFetch | client/app/pages/schedule/Schedule.jsx:118-129 | the end of a fetch turns loading off; the `catch` block sets the fixed message and keeps the old chart data; the `try` block keeps the error as it was and stores, for each hour k, the count of returned queries landing `(k - now) mod 24` hours ahead, a missing `results` counting as none |
| ScheduleView.FetchScheduledQueries | client/app/pages/schedule/Schedule.jsx:107-131 | after a fetch loading is off; a failure sets the fixed message and shows the alert instead of the chart; a success leaves the error cleared and shows 24 buckets with the counts of the returned queries, a missing `results` counting as none |
| ScheduleView.ExactlyOneShown | client/app/pages/schedule/Schedule.jsx:154-175 | in every reachable state exactly one of spinner, alert and chart is rendered |
| ScheduleView.ConsistencyPreserved | client/app/pages/schedule/Schedule.jsx:107-131 | the initial state, the start and the end of a fetch all keep loading and error apart |
| RangeStats.Total | client/app/pages/schedule/SchedulePage.jsx:74 | the `reduce` left fold equals the structural sum of the counts, 0 for no records |
| RangeStats.Peak | client/app/pages/schedule/SchedulePage.jsx:76 | 0 for no records; otherwise at least every count and equal to one of them |
| RangeStats.Average | client/app/pages/schedule/SchedulePage.jsx:75 | 0 for no records; otherwise the mean, whose product with the length is the total |
| RangeStats.AverageWithinPeak | client/app/pages/schedule/SchedulePage.jsx:74-76 | the total is at most the number of records times the peak, and the average never exceeds the peak |
| RangeStats.SummaryExample | client/app/pages/schedule/SchedulePage.jsx:74-76 | counts 3 and 5 give total 8, average 4 and peak 5 |
| RangeStats.SumOfPermutation | client/app/pages/schedule/SchedulePage.jsx:74 | the total does not depend on the order of the records |
| RangeStats.CompareCounts | client/app/pages/schedule/SchedulePage.jsx:69 | the sorter is negative, zero or positive exactly as the first count is below, equal to or above the second |
| RangeStats.SortByCount | client/app/pages/schedule/SchedulePage.jsx:69 | the sorted rows are the same records in ascending count order |
| RangeStats.SortKeepsSummary | client/app/pages/schedule/SchedulePage.jsx:69 | sorting the table changes none of total, average and peak |
| RangeStats.InitialStatsPage | client/app/pages/schedule/SchedulePage.jsx:22-27 | the page opens loading, over the range from 30 days before today through today, with no records, so total, average and peak read 0 |
| RangeStats.ChangeRange | client/app/pages/schedule/SchedulePage.jsx:52-56 | a two-element selection becomes the range and keeps loading state and records; anything else, null included, leaves the page unchanged, so the range moves only on such a selection and repeating one changes nothing |
| RangeStats.RequestArgs | client/app/pages/schedule/SchedulePage.jsx:34-37 | both parameters are present and the handler's parser reads each back as the day with the range end's ordinal |
| RangeStats.ToJson | redash/handlers/schedule.py:87-94 | one JSON row per record, in order; the i-th row's date reads back as the i-th record's day and its count is that record's |
| RangeStats.ServerResponse | client/app/pages/schedule/SchedulePage.jsx:31-42 | the request resolves exactly when the handler answers with status 200, and then with one row per handler record, in order, whose date reads back as the record's day and whose count is the record's |
| RangeStats.FetchScheduleData | client/app/pages/schedule/SchedulePage.jsx:29-46 | corrected to store the list received: loading ends on both paths and the range is kept; success shows the received list; failure empties it |
| RangeStats.ChartDataAsWritten | client/app/pages/schedule/SchedulePage.jsx:39-42 | as written, `setChartData(response.data)` stores `undefined` on every success, since the JSON list has no `data` property, and `[]` on failure |
| RangeStats.FiguresAsWritten | client/app/pages/schedule/SchedulePage.jsx:74-76 | the three figures exist exactly when `chartData` is a list, and read 0 for `[]`; on `undefined` the `reduce` throws |
| RangeStats.AnsweredFetchBreaksRender | client/app/pages/schedule/SchedulePage.jsx:39 | as written, every request the handler answers with 200, including an empty range, leaves `chartData` undefined, so the figures throw, while the corrected fetch holds the list sent |
| RangeStats.FailedFetchShowsZeros | client/app/pages/schedule/SchedulePage.jsx:40-44 | after a failed request total, average and peak all read 0 |
| RangeStats.GetParsed | redash/handlers/schedule.py:28-39 | two texts that parse make the handler count the inclusive range between their dates |
| RangeStats.InitialRangeIsDefaultWindow | client/app/pages/schedule/SchedulePage.jsx:24-27 | the first request, for today minus 30 days through today, gets the same reply as a request without dates |
| RangeStats.PageShowsDailyCounts | client/app/pages/schedule/SchedulePage.jsx:29-46 | the page shows one record per day of its range in order; the i-th names the range's i-th day and counts the queries active on it |
| RangeStats.PageEmptyOnOverflow | client/app/pages/schedule/SchedulePage.jsx:40-42 | a range reaching 9999-12-31 makes the handler fail, and the page shows no records |
| ScheduleStats.Get | redash/handlers/schedule.py:21-33 | a missing or empty date selects the range from 30 days before today through today, or status 500 when that start is before 0001-01-01; a malformed date gives the fixed message with status 400; otherwise the inclusive range of the parsed dates |
| ScheduleStats.DefaultWindow | redash/handlers/schedule.py:25-27 | without both dates the reply has 31 records, the first for the day 30 days before today and the last for today |
| ScheduleStats.DefaultWindowFails | redash/handlers/schedule.py:25-27 | without both dates the handler fails with status 500 when today is 0001-01-30 or earlier, or 9999-12-31 |
| ScheduleStats.DailyCounts | redash/handlers/schedule.py:35-94 | one record per day from start to end inclusive, consecutive and ascending, none when start is after end; status 500 exactly when the range reaches 9999-12-31; never a 400 |
| ScheduleStats.DailyCountsEnds | redash/handlers/schedule.py:36-92 | a range with start on or before end, ending before 9999-12-31, gives its first day's record first and its last day's record last |
| ScheduleStats.DailyCountsRecords | redash/handlers/schedule.py:87-90 | the i-th record's date is `YYYY-MM-DD` text that parses back to the i-th day of the range, and its count is the number of queries active that day |
| ScheduleStats.ActiveCount | redash/handlers/schedule.py:71-85 | the loop's `active_count` is the number of queries active on the day, as an independent count over the input |
| ScheduleStats.UntilAllows | redash/handlers/schedule.py:75-85 | the `until` test rejects a day exactly when the schedule's `until` is a non-empty string naming a date whose ordinal is at most the day's; anything else (missing, null, empty, not a string, not a date) lets the day through |
| ScheduleStats.ActiveOn | redash/handlers/schedule.py:59-85 | a query counts on a day exactly when its schedule is non-empty, it is not archived, its creation day's ordinal is at most the day's, and the day's ordinal is below that of its usable `until` |
| ScheduleStats.ActiveBeforeUntil | redash/handlers/schedule.py:75-79 | with a parsable `until`, a query counts exactly on the days from its creation day up to, not including, the `until` day |
| ScheduleStats.InactiveOnUntilDay | redash/handlers/schedule.py:77-79 | the comparison is strict: on the `until` day itself the query is not counted |
| ScheduleStats.ActiveWithoutUntil | redash/handlers/schedule.py:73-85 | with `until` missing, null, empty, not a string or not a date, a non-empty schedule counts on every day from its creation day on |
| ScheduleStats.EmptyScheduleNeverActive | redash/handlers/schedule.py:73 | an empty schedule object passes the database filter but is never counted |
| ScheduleStats.ActiveAtMostCandidates | redash/handlers/schedule.py:46-56 | each day's count is at most the unused `query_count`, which is at most the number of queries |
| ScheduleStats.CreatedOnOrBeforeByOrdinal | redash/handlers/schedule.py:40-44 | the corrected creation test is the order of day ordinals: created on the day or earlier |
| ScheduleStats.CreatedByMidnightIsStricter | redash/handlers/schedule.py:51 | the database's timestamp-against-midnight test implies the day test, and agrees with it except for queries created after midnight on the day itself |
| ScheduleStats.CreatedSameDayMissed | redash/handlers/schedule.py:51 | a query created at 10:00 on 2024-05-01 fails the filter as written on that day but is created on it and active by the corrected test |
| Calendar.ToOrdinal | redash/handlers/schedule.py:92 | every valid date has an ordinal in 1..3652059 |
| Calendar.FromOrdinal | redash/handlers/schedule.py:92 | every ordinal in range is the ordinal of a valid date |
| Calendar.FromToOrdinal | redash/handlers/schedule.py:92 | the ordinal of a valid date is in range and converts back to the same date |
| Calendar.AddDays | redash/handlers/schedule.py:92 | adding k days succeeds exactly when the shifted ordinal stays in range, and then yields the valid date with that ordinal |
| Calendar.OrdinalOrder | redash/handlers/schedule.py:39 | comparing dates field by field agrees with comparing their ordinals, for <, == and <= |
| Calendar.DaysBeforeYearStep | redash/handlers/schedule.py:92 | the standard library's day count before a year, `y*365 + y//4 - y//100 + y//400`, grows by that year's length from one year to the next |
| IsoDate.Format | redash/handlers/schedule.py:88 | the text is 10 characters long with dashes at positions 4 and 7 and ASCII digits elsewhere, which spell the year in four digits and the month and day in two |
| IsoDate.Parse | redash/handlers/schedule.py:30-31 | whatever the parser accepts is a valid date, written in 8 to 10 characters; which texts it accepts is stated by `ParseExactlySpellings` |
| IsoDate.ParseExactlySpellings | redash/handlers/schedule.py:30-33 | `strptime(s, "%Y-%m-%d")` gives date d exactly when d is valid and s is four year digits, a dash, a month spelling (two digits, or one below 10), a dash and a day spelling (two digits, or below 10 one digit alone or after a space); every other text raises ValueError |
| IsoDate.ParseOnlySpellings | redash/handlers/schedule.py:30-31 | every text the parser accepts is one of those spellings of the valid date it returns |
| IsoDate.SpellingsParse | redash/handlers/schedule.py:30-31 | every spelling of a valid date is accepted and read as that date |
| IsoDate.ParseFormat | redash/handlers/schedule.py:87-90 | parsing a formatted date gives back the date |
| IsoDate.FormatInjective | redash/handlers/schedule.py:88 | different dates are formatted differently |
| IsoDate.ParseAcceptsShortFields | redash/handlers/schedule.py:30-33 | "2024-5-7" and "2024-05- 7" parse to 2024-05-07, while "2024-02-30" and "2024-05-07x" are rejected |
| Digits.Pad2 | client/app/pages/schedule/Schedule.jsx:84 | `padStart(2, "0")` of 0..99: two digits reading back as the number |
| Sorting.SortBy | client/app/pages/schedule/Schedule.jsx:104 | the result is sorted by the key and is a permutation of the input |
| Sorting.SortByStrict | client/app/pages/schedule/Schedule.jsx:104 | with distinct keys the sorted result strictly increases |

## Left out

- The d3 chart drawing (`drawChart`) and all React/antd rendering are left out: both are UI over third-party libraries. Only which of spinner, alert and chart is shown is modelled.
- The axios requests, `routes.register`/`routeWithUserSession` (both pages register the name "Schedule" at `/schedule`), `recordEvent`, the Flask `require_permission` decorator and `request.args` are left out. They are framework plumbing, so the model takes the request outcome and the arguments as inputs.
- The SQLAlchemy queries and `jsonb_typeof` are modelled as a predicate over a sequence of query records. A `schedule` that is SQL NULL or JSON null is `None`. A schedule that is a JSON value other than an object is not modelled.
- Clocks are left out: `new Date()`, `moment()` and `datetime.utcnow()` become the parameters `now` and `today`.
- Time zones and DST are left out. The chart assumes every local hour is one distinct UTC hour key. The server's `today` is the UTC date. RangeStats.InitialRangeIsDefaultWindow takes one `today` for both sides: the browser's local `moment()` date (SchedulePage.jsx:24-27) is treated as the server's `datetime.utcnow().date()` (schedule.py:26), which they are not near midnight in time zones other than UTC. The database session's time zone for `created_at` is taken as the one its day is read in.
- RangeStats.ServerResponse: `@/services/axios` is not part of this model. Both Schedule pages import it, and Schedule.jsx:118 reads `response.results` straight off the resolved value, so the model takes the client to resolve to the response body. Under the other reading, axios's own response object, Schedule.jsx:118 would always see no queries and SchedulePage.jsx:39 would work.
- ScheduleStats.ActiveOn, ScheduleStats.ActiveCount, ScheduleStats.DailyCounts, ScheduleStats.Get, ScheduleStats.DailyCountsRecords: count a query from its creation day by comparing calendar days, not with the database's comparison of the creation timestamp against midnight (schedule.py:51, :64), which misses queries created during the day itself (see Findings).
- ScheduleStats.ActiveBeforeUntil, ScheduleStats.ActiveWithoutUntil: the creation side of these windows is the calendar-day test, not the database's timestamp-against-midnight comparison.
- RangeStats.FetchScheduleData: stores the list received, not `response.data` as SchedulePage.jsx:39 does; the as-written version is `ChartDataAsWritten` (see Findings).
- RangeStats.PageShowsDailyCounts: the counts shown are the calendar-day creation counts, not the database's timestamp-against-midnight comparison. The page is the corrected one that stores the list received (see Findings).
- HourlyBuckets.NextRunOffset: intervals are integers. A fractional or non-numeric `interval` is not modelled, and neither are floating-point rounding and magnitudes beyond 2^53.
- RangeStats.Average: the exact rational mean; `toFixed(1)` rounding and its string result are not modelled.
- RangeStats.Peak: `Math.max(...)` over more values than the engine's argument limit is not modelled.
- RangeStats.SortByCount: only the ascending order. The descending order antd applies on a second click is not modelled.
- RangeStats.RequestArgs: both ends must be in years 1..9999. moment's formatting of other years is not modelled.
- IsoDate.Format: always pads the year to four digits. The C library's `%Y` for years below 1000 may print fewer digits, and that case is not modelled.
- IsoDate.Parse: ASCII digits only. `strptime` also accepts other Unicode decimal digits, which `ParseExactlySpellings` therefore counts as rejected.
- The effect re-run when the range changes is left out, because it is React's dependency tracking. So is the race between overlapping fetches, because it is concurrency.
- `console.error` logging is left out.
- Calendar.FromOrdinal finds the year and month by search rather than by CPython's 400-year cycle arithmetic. Both compute the same date, which `FromToOrdinal` and the ensures of `FromOrdinal` pin down.

## Findings

| source | as written | input that shows it | evidently intended | confidence | as-written member | corrected member |
|---|---|---|---|---|---|---|
| redash/handlers/schedule.py:51 | `Query.created_at <= current_date` compares the creation timestamp with midnight at the start of the day, so a query created during day d fails the test on d (also at line 64) | a query created 2024-05-01 10:00, on the day 2024-05-01 | count it from its creation day on, as the comment at line 43 says ("created before or on this date") | medium; not executed; depends on the database promoting the date to a timestamp | ScheduleStats.CreatedSameDayMissed | ScheduleStats.CreatedOnOrBeforeByOrdinal |
| client/app/pages/schedule/SchedulePage.jsx:39 | `setChartData(response.data)`, where the shared client resolves to the response body, a JSON list with no `data` property, so `chartData` becomes `undefined` and `chartData.reduce` at line 74 throws | any request the handler answers with 200, such as the first one for the 31 days ending today | store the list the handler sent, `setChartData(response)` | medium; not executed; depends on the shared client resolving to the body, as Schedule.jsx:118 assumes | RangeStats.AnsweredFetchBreaksRender | RangeStats.PageShowsDailyCounts |
