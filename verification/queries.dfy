/**
 * The saved-query record as both pages and the statistics handler see it: its JSON
 * `schedule` object (or null), its creation time and its archived flag.
 */
module Queries {
  import opened Wrappers
  import opened Calendar

  /** A key of a JSON object: missing, present with null, or present with a value. */
  datatype Field<+T> = Absent | Null | Present(value: T)

  /** The value under `until`: a string, or some other non-null JSON value. */
  datatype UntilValue = UntilText(text: string) | UntilOther

  /**
   * A schedule object. `otherKeys` counts its remaining keys (`time`,
   * `day_of_week`, ...), which matter only for whether the object is empty.
   */
  datatype Schedule = Schedule(interval: Field<int>, until: Field<UntilValue>, otherKeys: nat)

  /** A point in time: a calendar day and the time elapsed since its midnight. */
  datatype Instant = Instant(date: Date, sinceMidnight: nat)

  /** `schedule` is None when it is JSON null or SQL NULL. */
  datatype Query = Query(schedule: Option<Schedule>, createdAt: Instant, isArchived: bool)

  /** Python's truth value of the schedule dict: false only for `{}`. */
  predicate NonEmpty(s: Schedule) {
    s.interval != Absent || s.until != Absent || s.otherKeys > 0
  }
}
