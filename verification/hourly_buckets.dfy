/**
 * `processScheduleData` of the Schedule page: how many scheduled queries have
 * their next run in each of the coming 24 hours.
 *
 * Time is an absolute local hour number `now` (the current time with minutes,
 * seconds and milliseconds cleared), so the hour of day is `now % 24`. Buckets are
 * keyed by absolute hour, as the source keys them by the instant's UTC
 * "YYYY-MM-DDTHH" text, which differs for every whole local hour.
 */
module HourlyBuckets {
  import opened Wrappers
  import opened Digits
  import opened Sorting
  import opened Counting
  import opened Queries

  const HoursPerDay: int := 24
  const SecondsPerHour: int := 3600
  const SecondsPerDay: int := 86400

  /** One bar of the chart: hour of day, number of queries, and the `label` text of its axis tick. */
  datatype Bucket = Bucket(hour: int, count: nat, axisLabel: string)

  /** `getHours()` of the instant `absHour`. */
  function HourOfDay(absHour: int): (h: int)
    ensures 0 <= h < HoursPerDay
  {
    absHour % HoursPerDay
  }

  /** `${String(hour).padStart(2, "0")}:00`. */
  function Label(hour: int): (s: string)
    requires 0 <= hour < HoursPerDay
    ensures |s| == 5 && s[2..] == ":00"
    ensures IsDigit(s[0]) && IsDigit(s[1]) && 10 * DigitValue(s[0]) + DigitValue(s[1]) == hour
  {
    Pad2(hour) + ":00"
  }

  /** The test `query.schedule && query.schedule.interval`: a schedule object with a non-zero interval. */
  predicate HasInterval(q: Query) {
    q.schedule.Some? && q.schedule.value.interval.Present? && q.schedule.value.interval.value != 0
  }

  function IntervalOf(q: Query): int
    requires HasInterval(q)
  {
    q.schedule.value.interval.value
  }

  /** `Math.trunc`. */
  function Trunc(x: real): int {
    if x >= 0.0 then x.Floor else -((-x).Floor)
  }

  /** JavaScript's `x % y`: the remainder has the sign of the dividend. */
  function JsRemainder(x: real, y: real): real
    requires y != 0.0
  {
    x - y * (Trunc(x / y) as real)
  }

  /**
   * `Math.floor((interval / 3600) % 24)`: hours from now to the bucket of the next
   * run. For a non-negative interval it is the whole hours of the interval modulo
   * 24. A negative interval gives a negative remainder, so the offset lies in
   * -24..0 and is 0, the current hour, exactly when the interval is a whole
   * number of days.
   */
  function NextRunOffset(interval: int): (h: int)
    ensures interval >= 0 ==> h == (interval / SecondsPerHour) % HoursPerDay && 0 <= h < HoursPerDay
    ensures interval < 0 ==> -HoursPerDay <= h <= 0 && (h == 0 <==> interval % SecondsPerDay == 0)
  {
    var h := JsRemainder(interval as real / 3600.0, 24.0).Floor;
    if interval >= 0 then
      FloatOffsetNonNegative(interval);
      h
    else
      FloatOffsetNegative(interval);
      h
  }

  lemma FloorIs(x: real, k: int)
    requires k as real <= x < k as real + 1.0
    ensures x.Floor == k
  {
  }

  /** The float computation for a non-negative interval: the whole hours of the interval, modulo 24. */
  lemma FloatOffsetNonNegative(interval: int)
    requires interval >= 0
    ensures JsRemainder(interval as real / 3600.0, 24.0).Floor == (interval / SecondsPerHour) % HoursPerDay
  {
    var q := interval / SecondsPerDay;
    var r := interval % SecondsPerDay;
    var x := interval as real / 3600.0;
    assert x / 24.0 == q as real + r as real / 86400.0;
    FloorIs(x / 24.0, q);
    assert JsRemainder(x, 24.0) == r as real / 3600.0;
    FloorIs(r as real / 3600.0, r / 3600);
    assert interval / 3600 == 24 * q + r / 3600;
  }

  /** The float computation for a negative interval: in -24..0, and 0 exactly for whole days. */
  lemma FloatOffsetNegative(interval: int)
    requires interval < 0
    ensures -HoursPerDay <= JsRemainder(interval as real / 3600.0, 24.0).Floor <= 0
    ensures JsRemainder(interval as real / 3600.0, 24.0).Floor == 0 <==> interval % SecondsPerDay == 0
  {
    var t := -interval;
    var q := t / SecondsPerDay;
    var r := t % SecondsPerDay;
    var x := interval as real / 3600.0;
    assert -(x / 24.0) == q as real + r as real / 86400.0;
    FloorIs(-(x / 24.0), q);
    assert Trunc(x / 24.0) == -q;
    assert JsRemainder(x, 24.0) == -(r as real / 3600.0);
    if r % 3600 == 0 {
      FloorIs(-(r as real / 3600.0), -(r / 3600));
    } else {
      FloorIs(-(r as real / 3600.0), -(r / 3600) - 1);
    }
    assert interval % SecondsPerDay == 0 <==> r == 0;
  }

  /** The examples of one hour, one day and one hour, and just under an hour. */
  lemma NextRunOffsetExamples()
    ensures NextRunOffset(3600) == 1
    ensures NextRunOffset(90000) == 1
    ensures NextRunOffset(3599) == 0
    ensures NextRunOffset(-86400) == 0
    ensures NextRunOffset(-3600) == -1
  {
    var x := -3600 as real / 3600.0;
    assert x == -1.0;
    FloorIs(-(x / 24.0), 0);
    FloorIs(JsRemainder(x, 24.0), -1);
  }

  /** The 24 zeroed buckets, keyed by the absolute hours now .. now+23. */
  function EmptyBuckets(now: int): (m: map<int, Bucket>)
    ensures forall key :: key in m <==> now <= key < now + HoursPerDay
  {
    map key | now <= key < now + HoursPerDay :: Bucket(HourOfDay(key), 0, Label(HourOfDay(key)))
  }

  /** `if (hourlyBuckets[hourKey]) hourlyBuckets[hourKey].count++`. */
  function Tally(m: map<int, Bucket>, key: int): (r: map<int, Bucket>)
    ensures r.Keys == m.Keys
  {
    if key in m then m[key := m[key].(count := m[key].count + 1)] else m
  }

  /** One step of the `forEach` over the queries. */
  function Visit(m: map<int, Bucket>, now: int, q: Query): (r: map<int, Bucket>)
    ensures r.Keys == m.Keys
  {
    if HasInterval(q) then Tally(m, now + NextRunOffset(IntervalOf(q))) else m
  }

  /** The buckets after the `forEach` has visited every query in order. */
  function TallyAll(now: int, queries: seq<Query>): (m: map<int, Bucket>)
    ensures forall key :: key in m <==> now <= key < now + HoursPerDay
    decreases |queries|
  {
    if |queries| == 0 then EmptyBuckets(now)
    else Visit(TallyAll(now, queries[..|queries| - 1]), now, queries[|queries| - 1])
  }

  /** `Object.values(hourlyBuckets)`: the keys were inserted in order now .. now+23. */
  function InsertionOrder(now: int, m: map<int, Bucket>): seq<Bucket>
    requires forall key :: now <= key < now + HoursPerDay ==> key in m
  {
    seq(HoursPerDay, i requires 0 <= i < HoursPerDay => m[now + i])
  }

  function HourKey(b: Bucket): int {
    b.hour
  }

  /** The insertion-order values sorted by `a.hour - b.hour`. */
  function SortedByHour(now: int, queries: seq<Query>): seq<Bucket> {
    SortBy(InsertionOrder(now, TallyAll(now, queries)), HourKey)
  }

  /**
   * `processScheduleData(queries)` at the local hour `now`: exactly 24 buckets,
   * the k-th for hour of day k, labelled "kk:00", counting the queries whose next
   * run is (k - now) mod 24 hours ahead.
   */
  function ProcessScheduleData(now: int, queries: seq<Query>): (chart: seq<Bucket>)
    ensures |chart| == HoursPerDay
    ensures forall k :: 0 <= k < HoursPerDay ==> chart[k] == Bucket(k, Landing(queries, (k - now) % HoursPerDay), Label(k))
  {
    SortedContent(now, queries);
    SortedByHour(now, queries)
  }

  // ----- the reference count -----

  /** `q` is scheduled and its next run falls `offset` hours from now. */
  predicate LandsAt(q: Query, offset: int) {
    HasInterval(q) && NextRunOffset(IntervalOf(q)) == offset
  }

  /** How many of `queries` have their next run `offset` hours from now. */
  function Landing(queries: seq<Query>, offset: int): nat {
    CountWhere(queries, q => LandsAt(q, offset))
  }

  lemma LandingSnoc(queries: seq<Query>, q: Query, offset: int)
    ensures Landing(queries + [q], offset) == Landing(queries, offset) + (if LandsAt(q, offset) then 1 else 0)
  {
    CountWhereSnoc(queries, q, x => LandsAt(x, offset));
  }

  /** After the `forEach`, the bucket `offset` hours ahead holds the number of queries landing there. */
  lemma {:induction false} TallyAllContent(now: int, queries: seq<Query>)
    ensures forall offset :: 0 <= offset < HoursPerDay ==>
      TallyAll(now, queries)[now + offset]
        == Bucket(HourOfDay(now + offset), Landing(queries, offset), Label(HourOfDay(now + offset)))
    decreases |queries|
  {
    if |queries| == 0 {
      forall offset | 0 <= offset < HoursPerDay
        ensures Landing(queries, offset) == 0
      {
        CountWhereEmpty(queries, x => LandsAt(x, offset));
      }
    } else {
      var init := queries[..|queries| - 1];
      var q := queries[|queries| - 1];
      assert queries == init + [q];
      TallyAllContent(now, init);
      forall offset | 0 <= offset < HoursPerDay
        ensures TallyAll(now, queries)[now + offset]
          == Bucket(HourOfDay(now + offset), Landing(queries, offset), Label(HourOfDay(now + offset)))
      {
        LandingSnoc(init, q, offset);
      }
    }
  }

  /** The insertion-order values: position `offset` is the bucket `offset` hours ahead. */
  lemma InsertionOrderContent(now: int, queries: seq<Query>)
    ensures forall offset :: 0 <= offset < HoursPerDay ==>
      InsertionOrder(now, TallyAll(now, queries))[offset]
        == Bucket(HourOfDay(now + offset), Landing(queries, offset), Label(HourOfDay(now + offset)))
  {
    TallyAllContent(now, queries);
  }

  /** A strictly increasing run of 24 hours of day is 0, 1, ..., 23. */
  lemma StrictHoursAreIndices(s: seq<Bucket>)
    requires |s| == HoursPerDay
    requires StrictlySortedBy(s, HourKey)
    requires forall i :: 0 <= i < |s| ==> 0 <= s[i].hour < HoursPerDay
    ensures forall k :: 0 <= k < |s| ==> s[k].hour == k
  {
    forall k | 0 <= k < |s|
      ensures s[k].hour == k
    {
      RisesFromFirst(s, k);
      RisesToLast(s, k);
    }
  }

  lemma {:induction false} RisesFromFirst(s: seq<Bucket>, k: int)
    requires StrictlySortedBy(s, HourKey)
    requires 0 <= k < |s|
    ensures s[k].hour >= s[0].hour + k
  {
    if k > 0 {
      RisesFromFirst(s, k - 1);
      assert HourKey(s[k - 1]) < HourKey(s[k]);
    }
  }

  lemma {:induction false} RisesToLast(s: seq<Bucket>, k: int)
    requires StrictlySortedBy(s, HourKey)
    requires 0 <= k < |s|
    ensures s[k].hour + (|s| - 1 - k) <= s[|s| - 1].hour
    decreases |s| - k
  {
    if k < |s| - 1 {
      RisesToLast(s, k + 1);
      assert HourKey(s[k]) < HourKey(s[k + 1]);
    }
  }

  /** The hour ahead of `now` whose hour of day is `hour`. */
  lemma OffsetOfHour(now: int, offset: int, hour: int)
    requires 0 <= offset < HoursPerDay
    requires HourOfDay(now + offset) == hour
    ensures offset == (hour - now) % HoursPerDay
  {
  }

  /** The hour `(k - now) mod 24` ahead of `now` is hour of day `k`. */
  lemma HourOfOffset(now: int, k: int)
    requires 0 <= k < HoursPerDay
    ensures HourOfDay(now + (k - now) % HoursPerDay) == k
  {
    var q := (k - now) / HoursPerDay;
    assert now + (k - now) % HoursPerDay == k - HoursPerDay * q;
  }

  /** The 24 hours ahead have 24 different hours of day. */
  lemma InsertionOrderDistinct(now: int, queries: seq<Query>)
    ensures DistinctKeys(InsertionOrder(now, TallyAll(now, queries)), HourKey)
  {
    var values := InsertionOrder(now, TallyAll(now, queries));
    InsertionOrderContent(now, queries);
    forall i, j | 0 <= i < j < |values|
      ensures HourKey(values[i]) != HourKey(values[j])
    {
      assert values[i].hour == HourOfDay(now + i);
      assert values[j].hour == HourOfDay(now + j);
    }
  }

  /** Sorting the 24 buckets by hour of day puts hour k at position k. */
  lemma ChartHourIsIndex(now: int, queries: seq<Query>)
    ensures |SortedByHour(now, queries)| == HoursPerDay
    ensures forall k :: 0 <= k < HoursPerDay ==> SortedByHour(now, queries)[k].hour == k
    ensures forall k :: 0 <= k < HoursPerDay ==> SortedByHour(now, queries)[k] in InsertionOrder(now, TallyAll(now, queries))
  {
    var values := InsertionOrder(now, TallyAll(now, queries));
    var chart := SortedByHour(now, queries);
    InsertionOrderDistinct(now, queries);
    SortByStrict(values, HourKey);
    SortBySameElements(values, HourKey);
    InsertionOrderContent(now, queries);
    forall k | 0 <= k < |chart|
      ensures 0 <= chart[k].hour < HoursPerDay
    {
      assert chart[k] in values;
      var i :| 0 <= i < |values| && values[i] == chart[k];
      assert values[i].hour == HourOfDay(now + i);
    }
    StrictHoursAreIndices(chart);
  }

  /** The sorted buckets in full, stated against the reference count. */
  lemma SortedContent(now: int, queries: seq<Query>)
    ensures |SortedByHour(now, queries)| == HoursPerDay
    ensures forall k :: 0 <= k < HoursPerDay ==>
      SortedByHour(now, queries)[k] == Bucket(k, Landing(queries, (k - now) % HoursPerDay), Label(k))
  {
    var values := InsertionOrder(now, TallyAll(now, queries));
    var chart := SortedByHour(now, queries);
    ChartPicksFromValues(now, queries);
    InsertionOrderContent(now, queries);
    forall k | 0 <= k < HoursPerDay
      ensures chart[k] == Bucket(k, Landing(queries, (k - now) % HoursPerDay), Label(k))
    {
      var offset := (k - now) % HoursPerDay;
      var h := HourOfDay(now + offset);
      HourOfOffset(now, k);
      assert chart[k] == values[offset];
      assert values[offset] == Bucket(h, Landing(queries, offset), Label(h));
    }
  }

  /** With no queries every bucket stays at zero. */
  lemma ProcessScheduleDataNoQueries(now: int)
    ensures forall k :: 0 <= k < HoursPerDay ==> ProcessScheduleData(now, [])[k] == Bucket(k, 0, Label(k))
  {
    forall offset | 0 <= offset < HoursPerDay
      ensures Landing([], offset) == 0
    {
      CountWhereEmpty([], (x: Query) => LandsAt(x, offset));
    }
  }

  /** A query without a schedule or with a zero interval changes no bucket. */
  lemma UnscheduledQueryIgnored(now: int, queries: seq<Query>, q: Query)
    requires !HasInterval(q)
    ensures ProcessScheduleData(now, queries + [q]) == ProcessScheduleData(now, queries)
  {
    assert (queries + [q])[..|queries|] == queries;
  }

  /**
   * The display order is by hour of day, not by time: the chart is the
   * chronological run of buckets (current hour first) rotated so that hour 0
   * comes first. Once the window crosses midnight, tomorrow's early hours are
   * shown before today's late ones.
   */
  lemma ChartIsRotation(now: int, queries: seq<Query>)
    ensures var values := InsertionOrder(now, TallyAll(now, queries));
            var split := (HoursPerDay - HourOfDay(now)) % HoursPerDay;
            ProcessScheduleData(now, queries) == values[split..] + values[..split]
  {
    ChartPicksFromValues(now, queries);
    RotationByIndex(SortedByHour(now, queries), InsertionOrder(now, TallyAll(now, queries)), now);
  }

  /** Position k of the chart holds the bucket (k - now) mod 24 hours ahead. */
  lemma ChartPicksFromValues(now: int, queries: seq<Query>)
    ensures |SortedByHour(now, queries)| == HoursPerDay
    ensures forall k :: 0 <= k < HoursPerDay ==>
      SortedByHour(now, queries)[k] == InsertionOrder(now, TallyAll(now, queries))[(k - now) % HoursPerDay]
  {
    var values := InsertionOrder(now, TallyAll(now, queries));
    var chart := SortedByHour(now, queries);
    ChartHourIsIndex(now, queries);
    InsertionOrderHours(now, queries);
    forall k | 0 <= k < HoursPerDay
      ensures chart[k] == values[(k - now) % HoursPerDay]
    {
      var i :| 0 <= i < |values| && values[i] == chart[k];
      OffsetOfHour(now, i, k);
    }
  }

  lemma InsertionOrderHours(now: int, queries: seq<Query>)
    ensures forall i :: 0 <= i < HoursPerDay ==> InsertionOrder(now, TallyAll(now, queries))[i].hour == HourOfDay(now + i)
  {
    InsertionOrderContent(now, queries);
  }

  lemma RotationByIndex<T>(chart: seq<T>, values: seq<T>, now: int)
    requires |chart| == HoursPerDay && |values| == HoursPerDay
    requires forall k :: 0 <= k < HoursPerDay ==> chart[k] == values[(k - now) % HoursPerDay]
    ensures var split := (HoursPerDay - HourOfDay(now)) % HoursPerDay;
            chart == values[split..] + values[..split]
  {
    var split := (HoursPerDay - HourOfDay(now)) % HoursPerDay;
    var rotated := values[split..] + values[..split];
    forall k | 0 <= k < HoursPerDay
      ensures chart[k] == rotated[k]
    {
      if k < HoursPerDay - split {
        assert rotated[k] == values[split + k];
        assert (k - now) % HoursPerDay == split + k;
      } else {
        assert rotated[k] == values[k - (HoursPerDay - split)];
        assert (k - now) % HoursPerDay == k - (HoursPerDay - split);
      }
    }
  }

  // ----- totals -----

  function SumCounts(s: seq<Bucket>): nat
    decreases |s|
  {
    if |s| == 0 then 0 else SumCounts(s[..|s| - 1]) + s[|s| - 1].count
  }

  lemma {:induction false} SumCountsAppend(a: seq<Bucket>, b: seq<Bucket>)
    ensures SumCounts(a + b) == SumCounts(a) + SumCounts(b)
    decreases |b|
  {
    if |b| > 0 {
      assert (a + b)[..|a + b| - 1] == a + b[..|b| - 1];
      SumCountsAppend(a, b[..|b| - 1]);
    } else {
      assert a + b == a;
    }
  }

  /** `q` is scheduled and its next run falls within the first `n` hours ahead. */
  predicate LandsBelow(q: Query, n: int) {
    HasInterval(q) && 0 <= NextRunOffset(IntervalOf(q)) < n
  }

  /** `q` lands in one of the 24 buckets. */
  predicate InWindow(q: Query) {
    LandsBelow(q, HoursPerDay)
  }

  /** The buckets for the first `n` hours ahead together count the queries landing there. */
  lemma {:induction false} SumFirstBuckets(now: int, queries: seq<Query>, n: int)
    requires 0 <= n <= HoursPerDay
    ensures SumCounts(InsertionOrder(now, TallyAll(now, queries))[..n]) == CountWhere(queries, q => LandsBelow(q, n))
  {
    var values := InsertionOrder(now, TallyAll(now, queries));
    if n == 0 {
      CountWhereCongruent(queries, q => LandsBelow(q, 0), q => false);
      assert (set i | 0 <= i < |queries| && (q => false)(queries[i])) == {};
    } else {
      SumFirstBuckets(now, queries, n - 1);
      assert values[..n][..n - 1] == values[..n - 1];
      InsertionOrderContent(now, queries);
      CountWhereSplit(queries, q => LandsBelow(q, n - 1), q => LandsAt(q, n - 1), q => LandsBelow(q, n));
    }
  }

  /**
   * The chart's counts add up to the number of scheduled queries that land in
   * the window, which is at most the number of scheduled queries.
   */
  lemma ChartTotal(now: int, queries: seq<Query>)
    ensures SumCounts(ProcessScheduleData(now, queries)) == CountWhere(queries, InWindow)
    ensures SumCounts(ProcessScheduleData(now, queries)) <= CountWhere(queries, HasInterval)
  {
    SortedTotal(now, queries);
  }

  lemma SortedTotal(now: int, queries: seq<Query>)
    ensures SumCounts(SortedByHour(now, queries)) == CountWhere(queries, InWindow)
    ensures SumCounts(SortedByHour(now, queries)) <= CountWhere(queries, HasInterval)
  {
    var values := InsertionOrder(now, TallyAll(now, queries));
    ChartPicksFromValues(now, queries);
    RotationByIndex(SortedByHour(now, queries), values, now);
    RotationSum(values, (HoursPerDay - HourOfDay(now)) % HoursPerDay);
    WindowSum(now, queries);
  }

  /** Rotating a run of buckets keeps its total. */
  lemma RotationSum(values: seq<Bucket>, split: int)
    requires 0 <= split <= |values|
    ensures SumCounts(values[split..] + values[..split]) == SumCounts(values)
  {
    var front := values[..split];
    var back := values[split..];
    assert front + back == values;
    SumCountsAppend(back, front);
    SumCountsAppend(front, back);
  }

  /** The 24 buckets in insertion order count the queries landing in the window. */
  lemma WindowSum(now: int, queries: seq<Query>)
    ensures SumCounts(InsertionOrder(now, TallyAll(now, queries))) == CountWhere(queries, InWindow)
    ensures CountWhere(queries, InWindow) <= CountWhere(queries, HasInterval)
  {
    var values := InsertionOrder(now, TallyAll(now, queries));
    SumFirstBuckets(now, queries, HoursPerDay);
    assert values[..HoursPerDay] == values;
    CountWhereCongruent(queries, q => LandsBelow(q, HoursPerDay), InWindow);
    CountWhereMonotone(queries, InWindow, HasInterval);
  }


  /** When every interval is positive, every scheduled query is counted exactly once. */
  lemma ChartTotalPositive(now: int, queries: seq<Query>)
    requires forall i :: 0 <= i < |queries| && HasInterval(queries[i]) ==> IntervalOf(queries[i]) > 0
    ensures SumCounts(ProcessScheduleData(now, queries)) == CountWhere(queries, HasInterval)
  {
    ChartTotal(now, queries);
    forall i | 0 <= i < |queries| && HasInterval(queries[i])
      ensures InWindow(queries[i])
    {
    }
    CountWhereCongruent(queries, InWindow, HasInterval);
  }
}
