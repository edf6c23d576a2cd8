/**
 * `ScheduleStatsResource.get`: for every calendar day of a requested range, how
 * many saved queries had an active schedule on that day.
 *
 * The database holds the queries as a sequence; the two SQL statements become a
 * filter over it. The request arguments, the current UTC date and the queries are
 * inputs. Dates are valid `datetime.date` values.
 */
module ScheduleStats {
  import opened Wrappers
  import opened Counting
  import opened Calendar
  import opened IsoDate
  import opened Queries

  const DefaultWindowDays: int := 30
  const InvalidDateMessage: string := "Invalid date format. Use YYYY-MM-DD"

  /** One element of the reply, before it is turned into JSON: a day and its count. */
  datatype DayCount = DayCount(day: Date, count: nat)

  /** A JSON object `{"date": ..., "count": ...}` as the client receives it. */
  datatype Row = Row(date: string, count: int)

  /** The element appended to `date_counts`: the day through `strftime("%Y-%m-%d")`. */
  function Serialize(r: DayCount): Row
    requires Valid(r.day)
  {
    Row(Format(r.day), r.count)
  }

  /**
   * The handler's outcome: the list of day records, the error body with status
   * 400, or an OverflowError escaping from date arithmetic.
   */
  datatype Reply = Counts(records: seq<DayCount>) | BadRequest(error: string) | Overflow

  /** The HTTP status the framework sends for each outcome. */
  function Status(r: Reply): int {
    match r
    case Counts(_) => 200
    case BadRequest(_) => 400
    case Overflow => 500
  }

  /** `not arg` for a query-string argument: missing or empty. */
  predicate Blank(arg: Option<string>) {
    arg.None? || arg.value == ""
  }

  // ----- which queries count on a day -----

  /**
   * `Query.created_at <= current_date` as the database evaluates it: the date is
   * promoted to the timestamp of its midnight, so a query created during the day
   * does not qualify until the next day.
   */
  predicate CreatedByMidnight(c: Instant, day: Date) {
    Before(c.date, day) || (c.date == day && c.sinceMidnight == 0)
  }

  /** Created on the day or before it, as the comment "created before or on this date" says. */
  predicate CreatedOnOrBefore(c: Instant, day: Date) {
    AtMost(c.date, day)
  }

  /** The SQL filter, as written: schedule not null, created by midnight, not archived. */
  predicate CandidateAsWritten(q: Query, day: Date) {
    q.schedule.Some? && CreatedByMidnight(q.createdAt, day) && !q.isArchived
  }

  /** The SQL filter with the creation test by calendar day; the rest of the model uses this one. */
  predicate Candidate(q: Query, day: Date) {
    q.schedule.Some? && CreatedOnOrBefore(q.createdAt, day) && !q.isArchived
  }

  /** The `until` day the loop compares with: a non-empty string that parses; None where the test is skipped or raises. */
  function UsableUntil(s: Schedule): (r: Option<Date>)
    ensures r.Some? ==> Valid(r.value)
  {
    match s.until
    case Present(UntilText(text)) => if text == "" then None else Parse(text)
    case _ => None
  }

  /**
   * The loop body's `until` test on a candidate's schedule: it rejects the day
   * exactly when a usable `until` is on or before it.
   */
  function UntilAllows(s: Schedule, day: Date): (allows: bool)
    ensures Valid(day) ==>
      (allows <==> UsableUntil(s).None? || ToOrdinal(day) < ToOrdinal(UsableUntil(s).value))
  {
    var allows :=
      match s.until
      case Absent => true
      case Null => true
      // falsy values skip the test; truthy ones make strptime raise TypeError
      case Present(UntilOther) => true
      case Present(UntilText(text)) =>
        if text == "" then true
        else match Parse(text)
          case None => true
          case Some(until) => Before(day, until);
    if Valid(day) && UsableUntil(s).Some? then
      OrdinalOrder(day, UsableUntil(s).value);
      allows
    else allows
  }

  /**
   * A query the loop counts on `day`: a non-empty schedule, not archived, created
   * on a day numbered at most `day`'s, and `day` numbered below its usable `until`.
   */
  function ActiveOn(q: Query, day: Date): (active: bool)
    ensures Valid(day) && Valid(q.createdAt.date) ==>
      (active <==>
        && q.schedule.Some? && NonEmpty(q.schedule.value) && !q.isArchived
        && ToOrdinal(q.createdAt.date) <= ToOrdinal(day)
        && (UsableUntil(q.schedule.value).None? || ToOrdinal(day) < ToOrdinal(UsableUntil(q.schedule.value).value)))
  {
    var active := Candidate(q, day) && NonEmpty(q.schedule.value) && UntilAllows(q.schedule.value, day);
    if Valid(day) && Valid(q.createdAt.date) then
      OrdinalOrder(q.createdAt.date, day);
      active
    else active
  }

  /** `active_count` after the `for` loop over the candidates: the number of queries active on the day. */
  function ActiveCount(queries: seq<Query>, day: Date): (c: nat)
    ensures c == CountWhere(queries, q => ActiveOn(q, day))
    decreases |queries|
  {
    if |queries| == 0 then
      CountWhereEmpty(queries, q => ActiveOn(q, day));
      0
    else
      var init := queries[..|queries| - 1];
      var last := queries[|queries| - 1];
      assert queries == init + [last];
      CountWhereSnoc(init, last, q => ActiveOn(q, day));
      ActiveCount(init, day) + (if ActiveOn(last, day) then 1 else 0)
  }

  /** `query_count`: computed by the source for every day and then never used. */
  function CandidateCount(queries: seq<Query>, day: Date): nat {
    CountWhere(queries, q => Candidate(q, day))
  }

  /** The record appended for `day`. */
  function DayRecord(day: Date, queries: seq<Query>): DayCount
    requires Valid(day)
  {
    DayCount(day, ActiveCount(queries, day))
  }

  /**
   * The `while current_date <= end_date` loop from `current` on. One record per
   * day, in ascending consecutive order; none when the range is empty. Stepping
   * past 9999-12-31 raises OverflowError, so a range ending on that day fails.
   */
  function DailyCounts(current: Date, end: Date, queries: seq<Query>): (r: Reply)
    requires Valid(current) && Valid(end)
    ensures r.Overflow? <==> ToOrdinal(current) <= ToOrdinal(end) == MaxOrdinal
    ensures !r.BadRequest?
    ensures r.Counts? ==>
      |r.records| == (if ToOrdinal(current) <= ToOrdinal(end) then ToOrdinal(end) - ToOrdinal(current) + 1 else 0)
    ensures r.Counts? ==> forall i :: 0 <= i < |r.records| ==> RecordFor(r.records[i], ToOrdinal(current) + i, queries)
    decreases ToOrdinal(end) - ToOrdinal(current)
  {
    OrdinalOrder(current, end);
    if !AtMost(current, end) then Counts([])
    else
      var record := DayRecord(current, queries);
      match AddDays(current, 1)
      case None => Overflow
      case Some(next) =>
        var later := DailyCounts(next, end, queries);
        if later.Counts? then
          PrependDay(current, next, later.records, queries);
          Counts([record] + later.records)
        else later
  }

  /** `r` is the record of the day with ordinal `n`. */
  predicate RecordFor(r: DayCount, n: int, queries: seq<Query>) {
    Valid(r.day) && ToOrdinal(r.day) == n && r.count == ActiveCount(queries, r.day)
  }

  lemma PrependDay(current: Date, next: Date, rest: seq<DayCount>, queries: seq<Query>)
    requires Valid(current) && Valid(next) && ToOrdinal(next) == ToOrdinal(current) + 1
    requires forall i :: 0 <= i < |rest| ==> RecordFor(rest[i], ToOrdinal(next) + i, queries)
    ensures forall i :: 0 <= i < |rest| + 1 ==> RecordFor(([DayRecord(current, queries)] + rest)[i], ToOrdinal(current) + i, queries)
  {
    forall i | 0 <= i < |rest| + 1
      ensures RecordFor(([DayRecord(current, queries)] + rest)[i], ToOrdinal(current) + i, queries)
    {
      if i > 0 {
        assert ([DayRecord(current, queries)] + rest)[i] == rest[i - 1];
      }
    }
  }

  /**
   * `get()`: with either argument missing or empty the range is the 31 days
   * ending today, which fails when that reaches back before 0001-01-01;
   * otherwise both are parsed and a malformed one gets status 400.
   */
  function Get(startArg: Option<string>, endArg: Option<string>, today: Date, queries: seq<Query>): (r: Reply)
    requires Valid(today)
    ensures r.Counts? ==> forall i :: 0 <= i < |r.records| ==> Valid(r.records[i].day)
    ensures (Blank(startArg) || Blank(endArg)) && DefaultWindowDays < ToOrdinal(today) ==>
      r == DailyCounts(AddDays(today, -DefaultWindowDays).value, today, queries)
    ensures (Blank(startArg) || Blank(endArg)) && ToOrdinal(today) <= DefaultWindowDays ==>
      r == Overflow
    ensures !Blank(startArg) && !Blank(endArg) && (Parse(startArg.value).None? || Parse(endArg.value).None?) ==>
      r == BadRequest(InvalidDateMessage) && Status(r) == 400
    ensures !Blank(startArg) && !Blank(endArg) && Parse(startArg.value).Some? && Parse(endArg.value).Some? ==>
      r == DailyCounts(Parse(startArg.value).value, Parse(endArg.value).value, queries)
  {
    if Blank(startArg) || Blank(endArg) then
      match AddDays(today, -DefaultWindowDays)
      case None => Overflow
      case Some(start) => DailyCounts(start, today, queries)
    else
      match Parse(startArg.value)
      case None => BadRequest(InvalidDateMessage)
      case Some(start) =>
        match Parse(endArg.value)
        case None => BadRequest(InvalidDateMessage)
        case Some(end) => DailyCounts(start, end, queries)
  }

  /** A non-empty range's first record is its first day's and its last record its last day's. */
  lemma DailyCountsEnds(current: Date, end: Date, queries: seq<Query>)
    requires Valid(current) && Valid(end)
    requires ToOrdinal(current) <= ToOrdinal(end) < MaxOrdinal
    ensures var r := DailyCounts(current, end, queries);
      && r.Counts? && |r.records| == ToOrdinal(end) - ToOrdinal(current) + 1
      && r.records[0] == DayRecord(current, queries)
      && r.records[|r.records| - 1] == DayRecord(end, queries)
  {
    var r := DailyCounts(current, end, queries);
    var last := ToOrdinal(end) - ToOrdinal(current);
    assert RecordFor(r.records[0], ToOrdinal(current) + 0, queries);
    assert RecordFor(r.records[last], ToOrdinal(current) + last, queries);
    OrdinalOrder(r.records[0].day, current);
    OrdinalOrder(r.records[last].day, end);
  }

  /**
   * Without both dates the reply covers the 31 days ending today: the first
   * record is 30 days before today and the last is today's.
   */
  lemma DefaultWindow(startArg: Option<string>, endArg: Option<string>, today: Date, queries: seq<Query>)
    requires Valid(today) && (Blank(startArg) || Blank(endArg))
    requires DefaultWindowDays < ToOrdinal(today) < MaxOrdinal
    ensures var r := Get(startArg, endArg, today, queries);
      && r.Counts? && |r.records| == DefaultWindowDays + 1
      && ToOrdinal(r.records[0].day) == ToOrdinal(today) - DefaultWindowDays
      && r.records[DefaultWindowDays] == DayRecord(today, queries)
  {
    DailyCountsEnds(AddDays(today, -DefaultWindowDays).value, today, queries);
  }

  /** Without both dates the handler fails (status 500) when today is 0001-01-30 or earlier, or 9999-12-31. */
  lemma DefaultWindowFails(startArg: Option<string>, endArg: Option<string>, today: Date, queries: seq<Query>)
    requires Valid(today) && (Blank(startArg) || Blank(endArg))
    requires ToOrdinal(today) <= DefaultWindowDays || ToOrdinal(today) == MaxOrdinal
    ensures Get(startArg, endArg, today, queries) == Overflow
    ensures Status(Get(startArg, endArg, today, queries)) == 500
  {
  }

  // ----- properties -----

  /**
   * The serialized record names the day with ordinal `n` in `%Y-%m-%d` form and
   * counts the queries active on that day.
   */
  predicate ReportsDay(row: Row, n: int, queries: seq<Query>) {
    NamesDay(row.date, n) && row.count == CountWhere(queries, q => ActiveOn(q, Parse(row.date).value))
  }

  /** Each record, serialized, reads back as its day and counts the queries active on it. */
  lemma DailyCountsRecords(current: Date, end: Date, queries: seq<Query>)
    requires Valid(current) && Valid(end)
    requires DailyCounts(current, end, queries).Counts?
    ensures var records := DailyCounts(current, end, queries).records;
      forall i :: 0 <= i < |records| ==> Valid(records[i].day) && ReportsDay(Serialize(records[i]), ToOrdinal(current) + i, queries)
  {
    var records := DailyCounts(current, end, queries).records;
    forall i | 0 <= i < |records|
      ensures Valid(records[i].day) && ReportsDay(Serialize(records[i]), ToOrdinal(current) + i, queries)
    {
      assert RecordFor(records[i], ToOrdinal(current) + i, queries);
      ParseFormat(records[i].day);
    }
  }

  /** The creation test by calendar day is the order of day ordinals. */
  lemma CreatedOnOrBeforeByOrdinal(c: Instant, day: Date)
    requires Valid(c.date) && Valid(day)
    ensures CreatedOnOrBefore(c, day) <==> ToOrdinal(c.date) <= ToOrdinal(day)
  {
    OrdinalOrder(c.date, day);
  }

  /** The database's test admits no query the day test rejects. */
  lemma CreatedByMidnightIsStricter(c: Instant, day: Date)
    ensures CreatedByMidnight(c, day) ==> CreatedOnOrBefore(c, day)
    ensures CreatedOnOrBefore(c, day) && (c.date != day || c.sinceMidnight == 0) ==> CreatedByMidnight(c, day)
  {
  }

  /**
   * A query created at 10:00 on 2024-05-01 fails the filter as written on
   * 2024-05-01, though it was created on that date.
   */
  lemma CreatedSameDayMissed()
    ensures var q := Query(Some(Schedule(Present(3600), Absent, 0)), Instant(Date(2024, 5, 1), 36000), false);
      && !CandidateAsWritten(q, Date(2024, 5, 1))
      && Candidate(q, Date(2024, 5, 1))
      && ActiveOn(q, Date(2024, 5, 1))
  {
  }

  /** A schedule with a parsable `until` is active from its creation day up to, not including, the `until` day. */
  lemma ActiveBeforeUntil(q: Query, day: Date, until: Date)
    requires Valid(day) && Valid(q.createdAt.date)
    requires !q.isArchived && q.schedule.Some?
    requires q.schedule.value.until.Present? && q.schedule.value.until.value.UntilText?
    requires Parse(q.schedule.value.until.value.text) == Some(until)
    ensures ActiveOn(q, day) <==> ToOrdinal(q.createdAt.date) <= ToOrdinal(day) < ToOrdinal(until)
  {
    OrdinalOrder(q.createdAt.date, day);
    OrdinalOrder(day, until);
  }

  /** The comparison with `until` is strict: on the `until` day itself the query is not counted. */
  lemma InactiveOnUntilDay(q: Query, day: Date)
    requires Valid(day) && q.schedule.Some?
    requires q.schedule.value.until == Present(UntilText(Format(day)))
    ensures !ActiveOn(q, day)
  {
    ParseFormat(day);
  }

  /**
   * Without a usable `until` (missing, null, empty, not a string, or not a date)
   * a non-empty schedule is active on every day from its creation day on.
   */
  lemma ActiveWithoutUntil(q: Query, day: Date)
    requires Valid(day) && Valid(q.createdAt.date)
    requires !q.isArchived && q.schedule.Some? && NonEmpty(q.schedule.value)
    requires match q.schedule.value.until
      case Present(UntilText(text)) => text == "" || Parse(text).None?
      case _ => true
    ensures ActiveOn(q, day) <==> ToOrdinal(q.createdAt.date) <= ToOrdinal(day)
  {
    OrdinalOrder(q.createdAt.date, day);
  }

  /** An empty schedule object passes the database filter but is never counted. */
  lemma EmptyScheduleNeverActive(q: Query, day: Date)
    requires q.schedule == Some(Schedule(Absent, Absent, 0))
    ensures !ActiveOn(q, day)
    ensures Candidate(q, day) <==> CreatedOnOrBefore(q.createdAt, day) && !q.isArchived
  {
  }

  /** Each day's count is at most the unused `query_count` of the database filter. */
  lemma ActiveAtMostCandidates(queries: seq<Query>, day: Date)
    ensures ActiveCount(queries, day) <= CandidateCount(queries, day)
    ensures CandidateCount(queries, day) <= |queries|
  {
    CountWhereMonotone(queries, q => ActiveOn(q, day), q => Candidate(q, day));
    CountWhereBound(queries, q => Candidate(q, day));
  }
}
