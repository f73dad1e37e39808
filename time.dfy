/** The model's view of JavaScript `Date`: instants are integers counting local
    wall-clock milliseconds, parsing is a parameter, and the moments derived from
    `new Date()` are given as a `Clock`. */
module Time {
  import opened Wrappers

  const DAY_MS: int := 24 * 60 * 60 * 1000

  /** `new Date(s).getTime()` for a date string `s`: `None` is an Invalid Date, whose
      time value is NaN. */
  type Parser = string -> Option<int>

  /** The moments the code derives from `new Date()`: the current instant, local
      midnight of today (`new Date(y, m, d)`), today's `getDay()` (0 is Sunday), and
      the first instants of this month, next month, this year and next year. */
  datatype Clock = Clock(
    now: int,
    today: int,
    weekday: int,
    monthStart: int,
    nextMonthStart: int,
    yearStart: int,
    nextYearStart: int)

  /** The relations a real calendar guarantees between those moments (in a time zone
      without daylight-saving shifts, so every local midnight is a multiple of a day). */
  predicate WellFormed(c: Clock) {
    && 0 <= c.weekday < 7
    && c.today % DAY_MS == 0
    && c.monthStart % DAY_MS == 0 && c.nextMonthStart % DAY_MS == 0
    && c.yearStart % DAY_MS == 0 && c.nextYearStart % DAY_MS == 0
    && c.today <= c.now < c.today + DAY_MS
    && c.yearStart <= c.monthStart <= c.today
    && c.today + DAY_MS <= c.nextMonthStart <= c.nextYearStart
  }

  /** `d.setHours(23, 59, 59, 999)`: the last millisecond of the local day of `t`. */
  function EndOfDay(t: int): (r: int)
    ensures t <= r < t + DAY_MS
    ensures (r + 1) % DAY_MS == 0
  {
    t - t % DAY_MS + DAY_MS - 1
  }

  /** The day of a local midnight `t` ends one millisecond before the next midnight. */
  lemma EndOfMidnight(t: int)
    requires t % DAY_MS == 0
    ensures EndOfDay(t) == t + DAY_MS - 1
  { }

  /** Whole days from a midnight lead to another midnight. */
  lemma MidnightPlusDays(t: int, k: int)
    requires t % DAY_MS == 0
    ensures (t + k * DAY_MS) % DAY_MS == 0
  { }

  /** `setHours` on an Invalid Date leaves it invalid. */
  function EndOfDayOpt(t: Option<int>): Option<int> {
    match t
    case None => None
    case Some(v) => Some(EndOfDay(v))
  }

  /** `a < b` on two `Date` values: false when either is NaN. */
  predicate Less(a: Option<int>, b: Option<int>) {
    a.Some? && b.Some? && a.value < b.value
  }

  /** `a <= b` (and `b >= a`) on two `Date` values: false when either is NaN. */
  predicate AtMost(a: Option<int>, b: Option<int>) {
    a.Some? && b.Some? && a.value <= b.value
  }
}
