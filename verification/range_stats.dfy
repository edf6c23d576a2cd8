/**
 * The Schedule statistics page: the per-day records it receives from
 * `/api/schedule-stats`, the three summary figures drawn from them, the count
 * column's sorter, the date-range picker's guard and the fetch that resets the
 * records on failure. Page dates are day numbers (the ordinal of a calendar day,
 * 1 being 0001-01-01); the request carries them as `YYYY-MM-DD` strings.
 */
module RangeStats {
  import opened Wrappers
  import opened Sorting
  import opened Counting
  import opened Calendar
  import opened IsoDate
  import opened Queries
  import opened ScheduleStats

  // ----- summary figures -----

  /** `chartData.reduce((sum, item) => sum + item.count, 0)`: a left fold from `acc`. */
  function FoldCounts(acc: int, data: seq<Row>): int
    decreases |data|
  {
    if |data| == 0 then acc else FoldCounts(acc + data[0].count, data[1..])
  }

  /** The sum of the counts, defined structurally: the reference for the total. */
  function SumOf(data: seq<Row>): int
    decreases |data|
  {
    if |data| == 0 then 0 else data[0].count + SumOf(data[1..])
  }

  /** `totalQueries`. */
  function Total(data: seq<Row>): (t: int)
    ensures |data| == 0 ==> t == 0
    ensures t == SumOf(data)
  {
    FoldFromAcc(0, data);
    FoldCounts(0, data)
  }

  lemma {:induction false} FoldFromAcc(acc: int, data: seq<Row>)
    ensures FoldCounts(acc, data) == acc + SumOf(data)
    decreases |data|
  {
    if |data| > 0 {
      FoldFromAcc(acc + data[0].count, data[1..]);
    }
  }

  /** The largest count of a non-empty sequence. */
  function MaxCount(data: seq<Row>): (m: int)
    requires |data| > 0
    ensures forall i :: 0 <= i < |data| ==> data[i].count <= m
    ensures exists i :: 0 <= i < |data| && data[i].count == m
    decreases |data|
  {
    if |data| == 1 then data[0].count
    else
      var rest := MaxCount(data[1..]);
      assert forall i :: 1 <= i < |data| ==> data[i] == data[1..][i - 1];
      if data[0].count >= rest then data[0].count else rest
  }

  /** `maxQueries`: 0 for no records, the largest count otherwise. */
  function Peak(data: seq<Row>): (m: int)
    ensures |data| == 0 ==> m == 0
    ensures forall i :: 0 <= i < |data| ==> data[i].count <= m
    ensures |data| > 0 ==> exists i :: 0 <= i < |data| && data[i].count == m
  {
    if |data| > 0 then MaxCount(data) else 0
  }

  /** `avgQueries` before `toFixed(1)`: the exact mean, 0 for no records. */
  function Average(data: seq<Row>): (a: real)
    ensures |data| == 0 ==> a == 0.0
    ensures |data| > 0 ==> a * (|data| as real) == Total(data) as real
  {
    if |data| > 0 then Total(data) as real / (|data| as real) else 0.0
  }

  lemma {:induction false} SumOfAtMost(data: seq<Row>, m: int)
    requires forall i :: 0 <= i < |data| ==> data[i].count <= m
    ensures SumOf(data) <= |data| * m
    decreases |data|
  {
    if |data| > 0 {
      assert forall i :: 0 <= i < |data[1..]| ==> data[1..][i] == data[i + 1];
      SumOfAtMost(data[1..], m);
    }
  }

  /** The mean never exceeds the peak, so the three figures never contradict each other. */
  lemma AverageWithinPeak(data: seq<Row>)
    ensures Total(data) <= |data| * Peak(data)
    ensures Average(data) <= Peak(data) as real
  {
    SumOfAtMost(data, Peak(data));
    if |data| > 0 {
      MeanAtMost(Average(data), |data|, Total(data), Peak(data));
    }
  }

  /** A mean `a` of a total `t` over `n > 0` items is at most `m` when `t <= n * m`. */
  lemma MeanAtMost(a: real, n: int, t: int, m: int)
    requires n > 0 && a * (n as real) == t as real && t <= n * m
    ensures a <= m as real
  {
    assert (n * m) as real == (n as real) * (m as real);
  }

  lemma {:induction false} SumOfAppend(a: seq<Row>, b: seq<Row>)
    ensures SumOf(a + b) == SumOf(a) + SumOf(b)
    decreases |a|
  {
    if |a| > 0 {
      assert (a + b)[0] == a[0];
      assert (a + b)[1..] == a[1..] + b;
      SumOfAppend(a[1..], b);
      assert SumOf(a + b) == a[0].count + SumOf(a[1..] + b);
    } else {
      assert a + b == b;
    }
  }

  /** The total depends only on which records there are, not on their order. */
  lemma {:induction false} SumOfPermutation(a: seq<Row>, b: seq<Row>)
    requires multiset(a) == multiset(b)
    ensures SumOf(a) == SumOf(b)
    decreases |a|
  {
    if |a| > 0 {
      assert a[0] in multiset(b);
      var j :| 0 <= j < |b| && b[j] == a[0];
      var rest := b[..j] + b[j + 1..];
      assert a == [a[0]] + a[1..];
      assert multiset(a[1..]) == multiset(a) - multiset{a[0]};
      SumOfRemoveAt(b, j);
      MultisetRemoveAt(b, j);
      SumOfPermutation(a[1..], rest);
    } else {
      assert |multiset(b)| == 0;
    }
  }

  /** Taking out the element at `j` takes its count out of the sum. */
  lemma SumOfRemoveAt(b: seq<Row>, j: int)
    requires 0 <= j < |b|
    ensures SumOf(b[..j] + b[j + 1..]) == SumOf(b) - b[j].count
  {
    var tail := [b[j]] + b[j + 1..];
    assert b == b[..j] + tail;
    assert tail[1..] == b[j + 1..];
    SumOfAppend(b[..j], tail);
    SumOfAppend(b[..j], b[j + 1..]);
  }

  lemma MultisetRemoveAt(b: seq<Row>, j: int)
    requires 0 <= j < |b|
    ensures multiset(b[..j] + b[j + 1..]) == multiset(b) - multiset{b[j]}
  {
    assert b == b[..j] + [b[j]] + b[j + 1..];
  }

  /** The peak too depends only on which records there are. */
  lemma PeakOfPermutation(a: seq<Row>, b: seq<Row>)
    requires multiset(a) == multiset(b)
    ensures Peak(a) == Peak(b)
  {
    assert |multiset(a)| == |multiset(b)|;
    if |a| > 0 {
      // each peak is the count of a record the other sequence holds too
      var i :| 0 <= i < |a| && a[i].count == Peak(a);
      assert a[i] in multiset(b);
      var k :| 0 <= k < |b| && b[k].count == Peak(b);
      assert b[k] in multiset(a);
    }
  }

  /** Two days with 3 and 5 queries: total 8, average 4, peak 5. */
  lemma SummaryExample()
    ensures var data := [Row("2024-05-01", 3), Row("2024-05-02", 5)];
      Total(data) == 8 && Average(data) == 4.0 && Peak(data) == 5
  {
    var data := [Row("2024-05-01", 3), Row("2024-05-02", 5)];
    assert data[1..] == [Row("2024-05-02", 5)];
  }

  // ----- the count column's sorter -----

  function CountKey(r: Row): int {
    r.count
  }

  /** `(a, b) => a.count - b.count`. */
  function CompareCounts(a: Row, b: Row): (c: int)
    ensures c < 0 <==> a.count < b.count
    ensures c == 0 <==> a.count == b.count
    ensures c > 0 <==> a.count > b.count
  {
    CompareBy(a, b, CountKey)
  }

  /** The table rows ordered by the sorter: ascending counts, the same records. */
  function SortByCount(data: seq<Row>): (r: seq<Row>)
    ensures forall i, j :: 0 <= i < j < |r| ==> r[i].count <= r[j].count
    ensures multiset(r) == multiset(data)
  {
    SortBy(data, CountKey)
  }

  /** Sorting the table leaves the summary figures as they were. */
  lemma SortKeepsSummary(data: seq<Row>)
    ensures Total(SortByCount(data)) == Total(data)
    ensures Peak(SortByCount(data)) == Peak(data)
    ensures Average(SortByCount(data)) == Average(data)
  {
    var sorted := SortByCount(data);
    SumOfPermutation(sorted, data);
    PeakOfPermutation(sorted, data);
    assert |sorted| == |multiset(sorted)| == |multiset(data)| == |data|;
  }

  // ----- page state -----

  /** The picker's `[start, end]`, as day numbers. */
  datatype DayRange = DayRange(start: int, end: int)

  datatype StatsPage = StatsPage(loading: bool, data: seq<Row>, range: DayRange)

  /**
   * What `axios.get` settled with: the response body, which for this handler is
   * the JSON list itself, or a rejection. The shared client resolves to the body
   * rather than to a response object: the Schedule page reads `response.results`
   * straight off the resolved value.
   */
  datatype StatsResponse = Received(body: seq<Row>) | RequestFailed

  /**
   * The state on first render: loading, over the 30 days before `today` through
   * `today`, with no records yet, so every figure reads 0.
   */
  function InitialStatsPage(today: int): (p: StatsPage)
    ensures p.loading && p.range.end == today && p.range.end - p.range.start == DefaultWindowDays
    ensures p.data == []
    ensures Total(p.data) == 0 && Peak(p.data) == 0 && Average(p.data) == 0.0
  {
    StatsPage(true, [], DayRange(today - DefaultWindowDays, today))
  }

  /**
   * `handleDateRangeChange`: `dates` is `None` for a null or undefined value;
   * only a two-element selection replaces the range.
   */
  function ChangeRange(p: StatsPage, dates: Option<seq<int>>): (r: StatsPage)
    ensures r.loading == p.loading && r.data == p.data
    ensures dates.Some? && |dates.value| == 2 ==> r.range == DayRange(dates.value[0], dates.value[1])
    ensures !(dates.Some? && |dates.value| == 2) ==> r == p
  {
    if dates.Some? && |dates.value| == 2 then p.(range := DayRange(dates.value[0], dates.value[1])) else p
  }

  /** The `start_date`/`end_date` parameters: `format("YYYY-MM-DD")` of each end of the range. */
  function RequestArgs(range: DayRange): (args: (Option<string>, Option<string>))
    requires 1 <= range.start <= MaxOrdinal && 1 <= range.end <= MaxOrdinal
    ensures args.0.Some? && NamesDay(args.0.value, range.start)
    ensures args.1.Some? && NamesDay(args.1.value, range.end)
  {
    ParseFormat(FromOrdinal(range.start));
    ParseFormat(FromOrdinal(range.end));
    (Some(Format(FromOrdinal(range.start))), Some(Format(FromOrdinal(range.end))))
  }

  /**
   * The JSON list the handler returns: one row per record, in order, whose date
   * reads back as the record's day and whose count is the record's.
   */
  function ToJson(records: seq<DayCount>): (rows: seq<Row>)
    requires forall i :: 0 <= i < |records| ==> Valid(records[i].day)
    ensures |rows| == |records|
    ensures forall i :: 0 <= i < |rows| ==>
      NamesDay(rows[i].date, ToOrdinal(records[i].day)) && rows[i].count == records[i].count
  {
    var rows := seq(|records|, i requires 0 <= i < |records| => Serialize(records[i]));
    assert forall i :: 0 <= i < |rows| ==> NamesDay(rows[i].date, ToOrdinal(records[i].day)) by {
      forall i | 0 <= i < |rows| {
        ParseFormat(records[i].day);
      }
    }
    rows
  }

  /**
   * The client resolves with the body on a 200 reply and rejects on 400 and 500;
   * the body holds the handler's records, one row each, in order.
   */
  function ServerResponse(reply: Reply): (s: StatsResponse)
    requires reply.Counts? ==> forall i :: 0 <= i < |reply.records| ==> Valid(reply.records[i].day)
    ensures s.Received? <==> Status(reply) == 200
    ensures s.Received? ==> reply.Counts? && |s.body| == |reply.records|
    ensures s.Received? ==> forall i :: 0 <= i < |s.body| ==>
      NamesDay(s.body[i].date, ToOrdinal(reply.records[i].day)) && s.body[i].count == reply.records[i].count
  {
    if reply.Counts? then Received(ToJson(reply.records)) else RequestFailed
  }

  /**
   * `fetchScheduleData` storing the list it received: loading while the request
   * runs; the list kept on success, emptied on failure. As written the page
   * stores `response.data` instead (`ChartDataAsWritten`).
   */
  function FetchScheduleData(p: StatsPage, response: StatsResponse): (r: StatsPage)
    ensures !r.loading && r.range == p.range
    ensures response.Received? ==> r.data == response.body
    ensures response.RequestFailed? ==> r.data == []
  {
    var started := p.(loading := true);
    match response
    case Received(body) => started.(data := body, loading := false)
    case RequestFailed => started.(data := [], loading := false)
  }

  /** After a failed request the statistics all read zero. */
  lemma FailedFetchShowsZeros(p: StatsPage)
    ensures var r := FetchScheduleData(p, RequestFailed);
      Total(r.data) == 0 && Peak(r.data) == 0 && Average(r.data) == 0.0
  {
  }

  // ----- the page and the handler together -----

  /** The handler, given two texts that parse, counts the days between their dates. */
  lemma GetParsed(startText: string, endText: string, start: Date, end: Date, today: Date, queries: seq<Query>)
    requires Valid(today)
    requires Parse(startText) == Some(start) && Parse(endText) == Some(end)
    ensures Get(Some(startText), Some(endText), today, queries) == DailyCounts(start, end, queries)
  {
    assert !Blank(Some(startText)) && !Blank(Some(endText));
  }

  /**
   * The page's first request, for the 30 days before today through today, gets
   * the same reply as a request without dates. `startText` and `endText` are any
   * texts that parse back to the range's days, as `RequestArgs` produces.
   */
  lemma InitialRangeIsDefaultWindow(today: int, startText: string, endText: string, queries: seq<Query>)
    requires DefaultWindowDays < today <= MaxOrdinal
    requires NamesDay(startText, InitialStatsPage(today).range.start)
    requires NamesDay(endText, InitialStatsPage(today).range.end)
    ensures Get(Some(startText), Some(endText), FromOrdinal(today), queries) == Get(None, None, FromOrdinal(today), queries)
  {
    var day := FromOrdinal(today);
    var start := Parse(startText).value;
    var end := Parse(endText).value;
    OrdinalOrder(end, day);
    OrdinalOrder(start, AddDays(day, -DefaultWindowDays).value);
    GetParsed(startText, endText, start, end, day, queries);
  }

  /**
   * A fetch for a range whose end is before 9999-12-31 shows one record per day
   * of the range, in order, each dated with its day and counting the queries
   * active on it.
   */
  lemma PageShowsDailyCounts(p: StatsPage, startText: string, endText: string, today: Date, queries: seq<Query>)
    requires Valid(today) && p.range.end < MaxOrdinal
    requires NamesDay(startText, p.range.start) && NamesDay(endText, p.range.end)
    ensures var r := FetchScheduleData(p, ServerResponse(Get(Some(startText), Some(endText), today, queries)));
      && |r.data| == (if p.range.start <= p.range.end then p.range.end - p.range.start + 1 else 0)
      && forall i :: 0 <= i < |r.data| ==> ReportsDay(r.data[i], p.range.start + i, queries)
  {
    var start := Parse(startText).value;
    var end := Parse(endText).value;
    GetParsed(startText, endText, start, end, today, queries);
    var reply := DailyCounts(start, end, queries);
    DailyCountsRecords(start, end, queries);
    var rows := ToJson(reply.records);
    assert FetchScheduleData(p, ServerResponse(reply)).data == rows;
    forall i | 0 <= i < |rows|
      ensures ReportsDay(rows[i], p.range.start + i, queries)
    {
      assert rows[i] == Serialize(reply.records[i]);
    }
  }

  /** A range reaching 9999-12-31 makes the handler fail, and the page shows no records. */
  lemma PageEmptyOnOverflow(p: StatsPage, startText: string, endText: string, today: Date, queries: seq<Query>)
    requires Valid(today) && p.range.start <= p.range.end == MaxOrdinal
    requires NamesDay(startText, p.range.start) && NamesDay(endText, p.range.end)
    ensures FetchScheduleData(p, ServerResponse(Get(Some(startText), Some(endText), today, queries))).data == []
  {
    GetParsed(startText, endText, Parse(startText).value, Parse(endText).value, today, queries);
  }

  // ----- the page as written -----

  /**
   * `setChartData(response.data)` as written, with `chartData` None for
   * `undefined`. The body is a JSON list, which has no `data` property, so every
   * successful request stores `undefined`; the `catch` block stores [].
   */
  function ChartDataAsWritten(response: StatsResponse): (chartData: Option<seq<Row>>)
    ensures chartData.None? <==> response.Received?
    ensures response.RequestFailed? ==> chartData == Some([])
  {
    match response
    case Received(_) => None
    case RequestFailed => Some([])
  }

  /**
   * Lines 74-76 on `chartData`: total, average and peak, or None where
   * `chartData.reduce` throws a TypeError on `undefined` and the page does not render.
   */
  function FiguresAsWritten(chartData: Option<seq<Row>>): (figures: Option<(int, real, int)>)
    ensures figures.Some? <==> chartData.Some?
    ensures chartData == Some([]) ==> figures == Some((0, 0.0, 0))
  {
    match chartData
    case None => None
    case Some(data) => Some((Total(data), Average(data), Peak(data)))
  }

  /**
   * As written, every request the handler answers with 200 leaves `chartData`
   * undefined and the statistics throw while rendering, although the corrected
   * page holds the list the handler sent.
   */
  lemma AnsweredFetchBreaksRender(p: StatsPage, startText: string, endText: string, today: Date, queries: seq<Query>)
    requires Valid(today) && Parse(startText).Some? && Parse(endText).Some?
    requires ToOrdinal(Parse(endText).value) < MaxOrdinal
    ensures var response := ServerResponse(Get(Some(startText), Some(endText), today, queries));
      && response.Received?
      && FiguresAsWritten(ChartDataAsWritten(response)).None?
      && FetchScheduleData(p, response).data == response.body
  {
    GetParsed(startText, endText, Parse(startText).value, Parse(endText).value, today, queries);
  }
}
