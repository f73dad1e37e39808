/** `dateUtils`: local calendar arithmetic. The Monday and the Sunday of the current
    week, the first and last days of the month and of the year, their `yyyy-mm-dd`
    strings, and inclusive range tests on parsed dates. A local date is a proleptic
    Gregorian `CivilDate`; `DayNumber` counts days from 1 January of year 0. */
module DateUtils {
  import opened Wrappers
  import opened Text
  import opened Time

  /** A calendar date; `month` counts from 1 (`getMonth() + 1`), `day` is `getDate()`. */
  datatype CivilDate = CivilDate(year: int, month: int, day: int)

  predicate IsLeap(y: int) {
    y % 4 == 0 && (y % 100 != 0 || y % 400 == 0)
  }

  function DaysInMonth(y: int, m: int): (n: int)
    requires 1 <= m <= 12
    ensures 28 <= n <= 31
  {
    if m == 2 then (if IsLeap(y) then 29 else 28)
    else if m == 4 || m == 6 || m == 9 || m == 11 then 30
    else 31
  }

  predicate Valid(d: CivilDate) {
    1 <= d.month <= 12 && 1 <= d.day <= DaysInMonth(d.year, d.month)
  }

  function DaysInYear(y: int): int {
    if IsLeap(y) then 366 else 365
  }

  /** Days of year `y` before the first of month `m`; `m == 13` gives the whole year. */
  function DaysBeforeMonth(y: int, m: int): int
    requires 1 <= m <= 13
  {
    (if m > 2 && IsLeap(y) then 1 else 0)
      + [0, 31, 59, 90, 120, 151, 181, 212, 243, 273, 304, 334, 365][m - 1]
  }

  /** The cumulative table agrees with the month lengths and adds up to the year. */
  lemma MonthTable(y: int, m: int)
    requires 1 <= m <= 12
    ensures DaysBeforeMonth(y, m + 1) == DaysBeforeMonth(y, m) + DaysInMonth(y, m)
    ensures DaysBeforeMonth(y, 13) == DaysInYear(y)
  {
  }

  /** Days from 1 January of year 0 to 1 January of year `y`: 365 a year, plus one
      for each leap year in between (floor division, so it counts down for `y < 0`). */
  function DaysBeforeYear(y: int): int {
    365 * y + (y + 3) / 4 - (y + 99) / 100 + (y + 399) / 400
  }

  /** `(a + 1) / n` exceeds `a / n` by one exactly when `a + 1` is a multiple of `n`,
      for the three divisors of the leap-year rule. */
  lemma FloorSteps(a: int)
    ensures (a + 1) / 4 == a / 4 + (if (a + 1) % 4 == 0 then 1 else 0)
    ensures (a + 1) / 100 == a / 100 + (if (a + 1) % 100 == 0 then 1 else 0)
    ensures (a + 1) / 400 == a / 400 + (if (a + 1) % 400 == 0 then 1 else 0)
  {
  }

  lemma ShiftedMod(y: int)
    ensures (y + 4) % 4 == y % 4 && (y + 100) % 100 == y % 100 && (y + 400) % 400 == y % 400
  {
    assert y + 4 == (y / 4 + 1) * 4 + y % 4;
    assert y + 100 == (y / 100 + 1) * 100 + y % 100;
    assert y + 400 == (y / 400 + 1) * 400 + y % 400;
  }

  /** Multiples of 400 are multiples of 100, which are multiples of 4. */
  lemma ModNesting(y: int)
    ensures y % 400 == 0 ==> y % 100 == 0
    ensures y % 100 == 0 ==> y % 4 == 0
  {
  }

  /** The leap-day count of `DaysBeforeYear` grows by one exactly over a leap year. */
  lemma {:induction false} LeapCountStep(y: int)
    ensures ((y + 4) / 4 - (y + 3) / 4) - ((y + 100) / 100 - (y + 99) / 100) + ((y + 400) / 400 - (y + 399) / 400)
      == DaysInYear(y) - 365
  {
    FloorSteps(y + 3);
    FloorSteps(y + 99);
    FloorSteps(y + 399);
    ShiftedMod(y);
    ModNesting(y);
  }

  /** Consecutive years are one year length apart. */
  lemma {:induction false} YearStep(y: int)
    ensures DaysBeforeYear(y + 1) == DaysBeforeYear(y) + DaysInYear(y)
  {
    LeapCountStep(y);
    assert DaysBeforeYear(y + 1) == 365 * y + 365 + (y + 4) / 4 - (y + 100) / 100 + (y + 400) / 400;
  }

  lemma {:induction false} YearsIncrease(y1: int, y2: int)
    requires y1 <= y2
    ensures DaysBeforeYear(y1) + 365 * (y2 - y1) <= DaysBeforeYear(y2)
    decreases y2 - y1
  {
    if y1 < y2 {
      YearStep(y1);
      YearsIncrease(y1 + 1, y2);
    }
  }

  /** The number of days from 1 January of year 0 to `d`. */
  function DayNumber(d: CivilDate): int
    requires Valid(d)
  {
    DaysBeforeYear(d.year) + DaysBeforeMonth(d.year, d.month) + d.day - 1
  }

  /** Calendar order: year, then month, then day. */
  predicate Before(a: CivilDate, b: CivilDate) {
    || a.year < b.year
    || (a.year == b.year && a.month < b.month)
    || (a.year == b.year && a.month == b.month && a.day < b.day)
  }

  lemma {:induction false} DayNumberInYear(d: CivilDate)
    requires Valid(d)
    ensures DaysBeforeYear(d.year) + DaysBeforeMonth(d.year, d.month) <= DayNumber(d)
    ensures DayNumber(d) < DaysBeforeYear(d.year) + DaysBeforeMonth(d.year, d.month + 1)
    ensures DayNumber(d) < DaysBeforeYear(d.year + 1)
  {
    MonthTable(d.year, d.month);
    YearStep(d.year);
  }

  /** Day numbers follow calendar order. */
  lemma {:induction false} DayNumberMonotone(a: CivilDate, b: CivilDate)
    requires Valid(a) && Valid(b) && Before(a, b)
    ensures DayNumber(a) < DayNumber(b)
  {
    DayNumberInYear(a);
    DayNumberInYear(b);
    if a.year < b.year {
      YearsIncrease(a.year + 1, b.year);
    } else if a.month < b.month {
      assert DaysBeforeMonth(a.year, a.month + 1) <= DaysBeforeMonth(b.year, b.month);
    }
  }

  /** A date is determined by its day number. */
  lemma {:induction false} DayNumberInjective(a: CivilDate, b: CivilDate)
    requires Valid(a) && Valid(b) && DayNumber(a) == DayNumber(b)
    ensures a == b
  {
    if Before(a, b) {
      DayNumberMonotone(a, b);
    } else if Before(b, a) {
      DayNumberMonotone(b, a);
    }
  }

  /** `getDay()`: 0 is Sunday. 1 January of year 0 was a Saturday. */
  function Weekday(d: CivilDate): (w: int)
    requires Valid(d)
    ensures 0 <= w < 7
  {
    (DayNumber(d) + 6) % 7
  }

  /** 1 January 1970 is day 719528, a Thursday. */
  const EPOCH_DAY: int := 719528

  lemma Epoch()
    ensures Valid(CivilDate(1970, 1, 1)) && DayNumber(CivilDate(1970, 1, 1)) == EPOCH_DAY
    ensures Weekday(CivilDate(1970, 1, 1)) == 4
  {
  }

  function NextDay(d: CivilDate): (r: CivilDate)
    requires Valid(d)
    ensures Valid(r) && DayNumber(r) == DayNumber(d) + 1
  {
    MonthTable(d.year, d.month);
    YearStep(d.year);
    if d.day < DaysInMonth(d.year, d.month) then d.(day := d.day + 1)
    else if d.month < 12 then CivilDate(d.year, d.month + 1, 1)
    else CivilDate(d.year + 1, 1, 1)
  }

  function PrevDay(d: CivilDate): (r: CivilDate)
    requires Valid(d)
    ensures Valid(r) && DayNumber(r) == DayNumber(d) - 1
  {
    if d.day > 1 then d.(day := d.day - 1)
    else if d.month > 1 then
      MonthTable(d.year, d.month - 1);
      CivilDate(d.year, d.month - 1, DaysInMonth(d.year, d.month - 1))
    else
      MonthTable(d.year - 1, 12);
      YearStep(d.year - 1);
      CivilDate(d.year - 1, 12, 31)
  }

  /** `date.setDate(date.getDate() + k)`: a day of the month outside the month runs
      on into the following or preceding months, so the result is `k` days later. */
  function ShiftDays(d: CivilDate, k: int): (r: CivilDate)
    requires Valid(d)
    ensures Valid(r) && DayNumber(r) == DayNumber(d) + k
    decreases if k >= 0 then k else -k
  {
    if k == 0 then d
    else if k > 0 then ShiftDays(NextDay(d), k - 1)
    else ShiftDays(PrevDay(d), k + 1)
  }

  /** `new Date(year, monthIndex, day)`: a year from 0 to 99 means 1900 to 1999; the
      month index runs on into other years; the day is counted from the first of
      that month, so day 0 is the last day of the month before. */
  function NewDate(year: int, monthIndex: int, day: int): (r: CivilDate)
    ensures Valid(r)
    ensures var y := if 0 <= year <= 99 then 1900 + year else year;
      var first := CivilDate(y + monthIndex / 12, monthIndex % 12 + 1, 1);
      Valid(first) && DayNumber(r) == DayNumber(first) + day - 1
  {
    var y := if 0 <= year <= 99 then 1900 + year else year;
    ShiftDays(CivilDate(y + monthIndex / 12, monthIndex % 12 + 1, 1), day - 1)
  }

  // ---------------------------------------------------------------------------
  // The week.

  /** `mondayOffset`: Sunday goes back six days, any other day back to Monday. */
  function MondayOffset(dayOfWeek: int): (r: int)
    requires 0 <= dayOfWeek < 7
    ensures -6 <= r <= 0
    ensures (dayOfWeek + r) % 7 == 1
  {
    if dayOfWeek == 0 then -6 else 1 - dayOfWeek
  }

  /** `sundayOffset`: Sunday stays, any other day goes forward to Sunday. */
  function SundayOffset(dayOfWeek: int): (r: int)
    requires 0 <= dayOfWeek < 7
    ensures 0 <= r <= 6
    ensures (dayOfWeek + r) % 7 == 0
  {
    if dayOfWeek == 0 then 0 else 7 - dayOfWeek
  }

  /** From the week's Monday to its Sunday is six days, whatever today is. */
  lemma WeekSpan(dayOfWeek: int)
    requires 0 <= dayOfWeek < 7
    ensures SundayOffset(dayOfWeek) - MondayOffset(dayOfWeek) == 6
  {
  }

  /** Moving `k` days moves the weekday by `k`, modulo 7. */
  lemma {:induction false} WeekdayShift(d: CivilDate, k: int)
    requires Valid(d)
    ensures Weekday(ShiftDays(d, k)) == (Weekday(d) + k) % 7
  {
    WeekdayApart(d, ShiftDays(d, k), k);
  }

  /** Two dates `k` days apart are `k` weekdays apart, modulo 7. */
  lemma WeekdayApart(d: CivilDate, r: CivilDate, k: int)
    requires Valid(d) && Valid(r) && DayNumber(r) == DayNumber(d) + k
    ensures Weekday(r) == (Weekday(d) + k) % 7
  {
    ModSeven(DayNumber(d) + 6, k);
  }

  lemma ModSeven(x: int, k: int)
    ensures (x + k) % 7 == (x % 7 + k) % 7
  {
  }

  /** The Monday `getWeekStartString` takes: today, moved by `mondayOffset`. */
  function WeekStart(today: CivilDate): (r: CivilDate)
    requires Valid(today)
    ensures Valid(r) && Weekday(r) == 1
    ensures DayNumber(r) <= DayNumber(today) < DayNumber(r) + 7
  {
    WeekdayShift(today, MondayOffset(Weekday(today)));
    ShiftDays(today, MondayOffset(Weekday(today)))
  }

  /** The Sunday `getWeekEndString` takes: today, moved by `sundayOffset`. */
  function WeekEnd(today: CivilDate): (r: CivilDate)
    requires Valid(today)
    ensures Valid(r) && Weekday(r) == 0
    ensures DayNumber(r) - 7 < DayNumber(today) <= DayNumber(r)
  {
    WeekdayShift(today, SundayOffset(Weekday(today)));
    ShiftDays(today, SundayOffset(Weekday(today)))
  }

  /** The week's Sunday is its Monday plus six days. */
  lemma {:induction false} WeekLength(today: CivilDate)
    requires Valid(today)
    ensures DayNumber(WeekEnd(today)) == DayNumber(WeekStart(today)) + 6
    ensures WeekEnd(today) == ShiftDays(WeekStart(today), 6)
  {
    WeekSpan(Weekday(today));
    DayNumberInjective(WeekEnd(today), ShiftDays(WeekStart(today), 6));
  }

  // ---------------------------------------------------------------------------
  // The month and the year.

  /** `new Date(getFullYear(), getMonth(), 1)`. */
  function MonthStart(today: CivilDate): CivilDate {
    NewDate(today.year, today.month - 1, 1)
  }

  /** `new Date(getFullYear(), getMonth() + 1, 0)`: day 0 of the next month. */
  function MonthEnd(today: CivilDate): CivilDate {
    NewDate(today.year, today.month, 0)
  }

  /** `new Date(getFullYear(), 0, 1)`. */
  function YearStart(today: CivilDate): CivilDate {
    NewDate(today.year, 0, 1)
  }

  /** `new Date(getFullYear(), 11, 31)`. */
  function YearEnd(today: CivilDate): CivilDate {
    NewDate(today.year, 11, 31)
  }

  /** The month runs from its first to its last day: the day after the month end is
      the first of a month. */
  lemma {:induction false} MonthBounds(today: CivilDate)
    requires Valid(today) && !(0 <= today.year <= 99)
    ensures MonthStart(today) == CivilDate(today.year, today.month, 1)
    ensures MonthEnd(today) == CivilDate(today.year, today.month, DaysInMonth(today.year, today.month))
    ensures NextDay(MonthEnd(today)).day == 1
  {
    MonthStartIs(today);
    MonthEndIs(today);
  }

  lemma MonthStartIs(today: CivilDate)
    requires Valid(today) && !(0 <= today.year <= 99)
    ensures MonthStart(today) == CivilDate(today.year, today.month, 1)
  {
    NewDateAt(today.year, today.month - 1, 1);
    assert (today.month - 1) / 12 == 0 && (today.month - 1) % 12 + 1 == today.month;
    DayNumberInjective(MonthStart(today), CivilDate(today.year, today.month, 1));
  }

  /** Day 0 of the next month is the last day of this one. */
  lemma {:induction false} MonthEndIs(today: CivilDate)
    requires Valid(today) && !(0 <= today.year <= 99)
    ensures MonthEnd(today) == CivilDate(today.year, today.month, DaysInMonth(today.year, today.month))
  {
    var y, m := today.year, today.month;
    NextMonthFirst(y, m);
    NewDateAt(y, m, 0);
    DayNumberInjective(MonthEnd(today), CivilDate(y, m, DaysInMonth(y, m)));
  }

  /** Outside years 0 to 99, `new Date` counts from the first of the month it names. */
  lemma NewDateAt(year: int, monthIndex: int, day: int)
    requires !(0 <= year <= 99)
    ensures Valid(CivilDate(year + monthIndex / 12, monthIndex % 12 + 1, 1))
    ensures DayNumber(NewDate(year, monthIndex, day))
      == DayNumber(CivilDate(year + monthIndex / 12, monthIndex % 12 + 1, 1)) + day - 1
  {
    var r := NewDate(year, monthIndex, day);
  }

  /** The first of the next month comes `DaysInMonth` days after the first of this one. */
  lemma {:induction false} NextMonthFirst(y: int, m: int)
    requires 1 <= m <= 12
    ensures Valid(CivilDate(y + m / 12, m % 12 + 1, 1))
    ensures Valid(CivilDate(y, m, DaysInMonth(y, m)))
    ensures DayNumber(CivilDate(y + m / 12, m % 12 + 1, 1)) == DayNumber(CivilDate(y, m, DaysInMonth(y, m))) + 1
  {
    MonthTable(y, m);
    if m == 12 {
      YearStep(y);
      assert CivilDate(y + m / 12, m % 12 + 1, 1) == CivilDate(y + 1, 1, 1);
    } else {
      assert CivilDate(y + m / 12, m % 12 + 1, 1) == CivilDate(y, m + 1, 1);
    }
  }

  /** The year runs from 1 January to 31 December, the day before the next 1 January. */
  lemma {:induction false} YearBounds(today: CivilDate)
    requires Valid(today) && !(0 <= today.year <= 99)
    ensures YearStart(today) == CivilDate(today.year, 1, 1)
    ensures YearEnd(today) == CivilDate(today.year, 12, 31)
    ensures NextDay(YearEnd(today)) == CivilDate(today.year + 1, 1, 1)
  {
    YearStartIs(today);
    YearEndIs(today);
    assert DaysInMonth(today.year, 12) == 31;
  }

  lemma YearStartIs(today: CivilDate)
    requires Valid(today) && !(0 <= today.year <= 99)
    ensures YearStart(today) == CivilDate(today.year, 1, 1)
  {
    NewDateAt(today.year, 0, 1);
    DayNumberInjective(YearStart(today), CivilDate(today.year, 1, 1));
  }

  lemma YearEndIs(today: CivilDate)
    requires Valid(today) && !(0 <= today.year <= 99)
    ensures YearEnd(today) == CivilDate(today.year, 12, 31)
  {
    var y := today.year;
    NewDateAt(y, 11, 31);
    assert CivilDate(y + 11 / 12, 11 % 12 + 1, 1) == CivilDate(y, 12, 1);
    assert DayNumber(CivilDate(y, 12, 31)) == DayNumber(CivilDate(y, 12, 1)) + 30;
    DayNumberInjective(YearEnd(today), CivilDate(y, 12, 31));
  }

  /** A two-digit year is read as 19xx, so in year 50 the year starts in 1950. */
  lemma TwoDigitYear()
    ensures YearStart(CivilDate(50, 6, 15)) == CivilDate(1950, 1, 1)
  {
    DayNumberInjective(YearStart(CivilDate(50, 6, 15)), CivilDate(1950, 1, 1));
  }

  // ---------------------------------------------------------------------------
  // Date strings.

  /** The year of `toISOString`: four digits for years 0 to 9999, otherwise a sign
      and six digits. */
  function YearString(y: int): string {
    if 0 <= y <= 9999 then ZeroPad(y, 4)
    else (if y < 0 then "-" else "+") + ZeroPad(if y < 0 then -y else y, 6)
  }

  /** `date.toISOString().split('T')[0]` for a date at local midnight, read in a time
      zone at UTC: `yyyy-mm-dd`. */
  function IsoDate(d: CivilDate): string
    requires Valid(d)
  {
    YearString(d.year) + "-" + ZeroPad(d.month, 2) + "-" + ZeroPad(d.day, 2)
  }

  /** Reading a `yyyy-mm-dd` string back. */
  function ParseIsoDate(s: string): (r: Option<CivilDate>)
    ensures r.Some? ==> |s| == 10 && s[4] == '-' && s[7] == '-'
  {
    if |s| == 10 && s[4] == '-' && s[7] == '-'
       && AllDigits(s[..4]) && AllDigits(s[5..7]) && AllDigits(s[8..])
    then Some(CivilDate(DigitsValue(s[..4]), DigitsValue(s[5..7]), DigitsValue(s[8..])))
    else None
  }

  /** A number below `10^w`, padded to `w` digits, has exactly `w` digits and reads back. */
  lemma PaddedDigits(n: nat, w: nat)
    requires w >= 1 && n < Pow10(w)
    ensures |ZeroPad(n, w)| == w && DigitsValue(ZeroPad(n, w)) == n
  {
    FewDigits(n, w);
    ZeroPadRoundTrip(n, w);
  }

  /** Three digit strings of widths 4, 2 and 2 joined by dashes parse as their values. */
  lemma {:induction false} IsoParts(ys: string, ms: string, ds: string)
    requires |ys| == 4 && |ms| == 2 && |ds| == 2
    requires AllDigits(ys) && AllDigits(ms) && AllDigits(ds)
    ensures ParseIsoDate(ys + "-" + ms + "-" + ds)
            == Some(CivilDate(DigitsValue(ys), DigitsValue(ms), DigitsValue(ds)))
  {
    var s := ys + "-" + ms + "-" + ds;
    assert s[..4] == ys && s[5..7] == ms && s[8..] == ds;
  }

  /** For years 0 to 9999 the date string reads back as the date. */
  lemma {:induction false} IsoDateRoundTrip(d: CivilDate)
    requires Valid(d) && 0 <= d.year <= 9999
    ensures ParseIsoDate(IsoDate(d)) == Some(d)
  {
    assert Pow10(4) == 10000 && Pow10(2) == 100;
    PaddedDigits(d.year, 4);
    PaddedDigits(d.month, 2);
    PaddedDigits(d.day, 2);
    assert IsoDate(d) == ZeroPad(d.year, 4) + "-" + ZeroPad(d.month, 2) + "-" + ZeroPad(d.day, 2);
    IsoParts(ZeroPad(d.year, 4), ZeroPad(d.month, 2), ZeroPad(d.day, 2));
  }

  /** Different dates of years 0 to 9999 have different strings. */
  lemma {:induction false} IsoDateInjective(a: CivilDate, b: CivilDate)
    requires Valid(a) && 0 <= a.year <= 9999 && Valid(b) && 0 <= b.year <= 9999
    requires IsoDate(a) == IsoDate(b)
    ensures a == b
  {
    IsoDateRoundTrip(a);
    IsoDateRoundTrip(b);
  }

  /** `getTodayString`. */
  function GetTodayString(today: CivilDate): (r: string)
    requires Valid(today)
    ensures 0 <= today.year <= 9999 ==> ParseIsoDate(r) == Some(today)
  {
    if 0 <= today.year <= 9999 then IsoDateRoundTrip(today); IsoDate(today) else IsoDate(today)
  }

  /** `getWeekStartString`: the string of the week's Monday. */
  function GetWeekStartString(today: CivilDate): (r: string)
    requires Valid(today)
    ensures var m := WeekStart(today); 0 <= m.year <= 9999 ==> ParseIsoDate(r) == Some(m)
  {
    var m := WeekStart(today);
    if 0 <= m.year <= 9999 then IsoDateRoundTrip(m); IsoDate(m) else IsoDate(m)
  }

  /** `getWeekEndString`: the string of the week's Sunday. */
  function GetWeekEndString(today: CivilDate): (r: string)
    requires Valid(today)
    ensures var s := WeekEnd(today); 0 <= s.year <= 9999 ==> ParseIsoDate(r) == Some(s)
  {
    var s := WeekEnd(today);
    if 0 <= s.year <= 9999 then IsoDateRoundTrip(s); IsoDate(s) else IsoDate(s)
  }

  /** `getMonthStartString`. */
  function GetMonthStartString(today: CivilDate): (r: string)
    ensures var m := MonthStart(today); 0 <= m.year <= 9999 ==> ParseIsoDate(r) == Some(m)
  {
    var m := MonthStart(today);
    if 0 <= m.year <= 9999 then IsoDateRoundTrip(m); IsoDate(m) else IsoDate(m)
  }

  /** `getMonthEndString`. */
  function GetMonthEndString(today: CivilDate): (r: string)
    ensures var m := MonthEnd(today); 0 <= m.year <= 9999 ==> ParseIsoDate(r) == Some(m)
  {
    var m := MonthEnd(today);
    if 0 <= m.year <= 9999 then IsoDateRoundTrip(m); IsoDate(m) else IsoDate(m)
  }

  /** `getYearStartString`. */
  function GetYearStartString(today: CivilDate): (r: string)
    ensures var y := YearStart(today); 0 <= y.year <= 9999 ==> ParseIsoDate(r) == Some(y)
  {
    var y := YearStart(today);
    if 0 <= y.year <= 9999 then IsoDateRoundTrip(y); IsoDate(y) else IsoDate(y)
  }

  /** `getYearEndString`. */
  function GetYearEndString(today: CivilDate): (r: string)
    ensures var y := YearEnd(today); 0 <= y.year <= 9999 ==> ParseIsoDate(r) == Some(y)
  {
    var y := YearEnd(today);
    if 0 <= y.year <= 9999 then IsoDateRoundTrip(y); IsoDate(y) else IsoDate(y)
  }

  // ---------------------------------------------------------------------------
  // Range tests.

  /** `date >= start && date <= end` on three parsed dates; a comparison with an
      Invalid Date is false. */
  predicate IsDateInRange(dateString: string, startDate: string, endDate: string, parse: Parser) {
    AtMost(parse(startDate), parse(dateString)) && AtMost(parse(dateString), parse(endDate))
  }

  /** Inclusive at both ends, and false as soon as one string does not parse. */
  lemma {:induction false} DateInRangeMeaning(dateString: string, startDate: string, endDate: string, parse: Parser)
    ensures IsDateInRange(dateString, startDate, endDate, parse) <==>
      && parse(dateString).Some? && parse(startDate).Some? && parse(endDate).Some?
      && parse(startDate).value <= parse(dateString).value <= parse(endDate).value
    ensures parse(startDate).Some? && parse(endDate).Some? && parse(startDate).value <= parse(endDate).value ==>
      IsDateInRange(startDate, startDate, endDate, parse) && IsDateInRange(endDate, startDate, endDate, parse)
  {
  }

  /** `isToday`: the same local calendar day as today (`toDateString` of an Invalid
      Date matches no day). `parseDay` reads the local date of a string. */
  predicate IsToday(dateString: string, today: CivilDate, parseDay: string -> Option<CivilDate>) {
    parseDay(dateString) == Some(today)
  }

  predicate IsThisWeek(dateString: string, today: CivilDate, parse: Parser)
    requires Valid(today)
  {
    IsDateInRange(dateString, GetWeekStartString(today), GetWeekEndString(today), parse)
  }

  predicate IsThisMonth(dateString: string, today: CivilDate, parse: Parser) {
    IsDateInRange(dateString, GetMonthStartString(today), GetMonthEndString(today), parse)
  }

  predicate IsThisYear(dateString: string, today: CivilDate, parse: Parser) {
    IsDateInRange(dateString, GetYearStartString(today), GetYearEndString(today), parse)
  }

  /** The instant of midnight at the start of `d`, in milliseconds since 1970. */
  function Midnight(d: CivilDate): int
    requires Valid(d)
  {
    (DayNumber(d) - EPOCH_DAY) * DAY_MS
  }

  /** The parser reads a `yyyy-mm-dd` string as midnight of that day. */
  ghost predicate ParsesDateStrings(parse: Parser) {
    forall d :: Valid(d) && 0 <= d.year <= 9999 ==> parse(IsoDate(d)) == Some(Midnight(d))
  }

  /** The week test spans Monday 00:00 to Sunday 00:00 inclusive: a time later on
      the Sunday is not in this week. */
  lemma {:induction false} ThisWeekInstants(dateString: string, today: CivilDate, parse: Parser)
    requires Valid(today) && ParsesDateStrings(parse)
    requires 0 <= WeekStart(today).year <= 9999 && 0 <= WeekEnd(today).year <= 9999
    ensures IsThisWeek(dateString, today, parse) <==>
      parse(dateString).Some? &&
      Midnight(WeekStart(today)) <= parse(dateString).value <= Midnight(WeekStart(today)) + 6 * DAY_MS
  {
    var lo, hi := WeekStart(today), WeekEnd(today);
    WeekMidnights(today);
    WeekStrings(today);
    ParsedMidnight(parse, lo);
    ParsedMidnight(parse, hi);
    InstantsInRange(dateString, lo, hi, GetWeekStartString(today), GetWeekEndString(today), parse);
  }

  lemma WeekStrings(today: CivilDate)
    requires Valid(today)
    ensures GetWeekStartString(today) == IsoDate(WeekStart(today))
    ensures GetWeekEndString(today) == IsoDate(WeekEnd(today))
  {
  }

  lemma {:induction false} WeekMidnights(today: CivilDate)
    requires Valid(today)
    ensures Midnight(WeekEnd(today)) == Midnight(WeekStart(today)) + 6 * DAY_MS
  {
    WeekLength(today);
    MidnightsApart(WeekStart(today), WeekEnd(today), 6);
  }

  /** Days `k` apart in the calendar are `k` whole days apart in milliseconds. */
  lemma MidnightsApart(a: CivilDate, b: CivilDate, k: int)
    requires Valid(a) && Valid(b) && DayNumber(b) == DayNumber(a) + k
    ensures Midnight(b) == Midnight(a) + k * DAY_MS
  {
    var x, y := DayNumber(a), DayNumber(b);
    assert (y - EPOCH_DAY) * DAY_MS == (x - EPOCH_DAY) * DAY_MS + k * DAY_MS;
  }

  lemma ParsedMidnight(parse: Parser, d: CivilDate)
    requires ParsesDateStrings(parse) && Valid(d) && 0 <= d.year <= 9999
    ensures parse(IsoDate(d)) == Some(Midnight(d))
  {
  }

  /** The range test on the strings of two dates compares with their midnights. */
  lemma {:induction false} InstantsInRange(dateString: string, lo: CivilDate, hi: CivilDate, loString: string, hiString: string, parse: Parser)
    requires Valid(lo) && Valid(hi)
    requires parse(loString) == Some(Midnight(lo)) && parse(hiString) == Some(Midnight(hi))
    ensures IsDateInRange(dateString, loString, hiString, parse) <==>
      parse(dateString).Some? && Midnight(lo) <= parse(dateString).value <= Midnight(hi)
  {
    DateInRangeMeaning(dateString, loString, hiString, parse);
  }

  /** The month test spans the first 00:00 to the last day's 00:00 inclusive. */
  lemma {:induction false} ThisMonthInstants(dateString: string, today: CivilDate, parse: Parser)
    requires Valid(today) && 100 <= today.year <= 9999 && ParsesDateStrings(parse)
    ensures IsThisMonth(dateString, today, parse) <==>
      parse(dateString).Some? &&
      Midnight(CivilDate(today.year, today.month, 1)) <= parse(dateString).value
        <= Midnight(CivilDate(today.year, today.month, DaysInMonth(today.year, today.month)))
  {
    MonthBounds(today);
    var lo, hi := MonthStart(today), MonthEnd(today);
    assert parse(IsoDate(lo)) == Some(Midnight(lo));
    assert parse(IsoDate(hi)) == Some(Midnight(hi));
    InstantsInRange(dateString, lo, hi, GetMonthStartString(today), GetMonthEndString(today), parse);
  }

  /** The year test spans 1 January 00:00 to 31 December 00:00 inclusive. */
  lemma {:induction false} ThisYearInstants(dateString: string, today: CivilDate, parse: Parser)
    requires Valid(today) && 100 <= today.year <= 9999 && ParsesDateStrings(parse)
    ensures IsThisYear(dateString, today, parse) <==>
      parse(dateString).Some? &&
      Midnight(CivilDate(today.year, 1, 1)) <= parse(dateString).value <= Midnight(CivilDate(today.year, 12, 31))
  {
    YearBounds(today);
    var lo, hi := YearStart(today), YearEnd(today);
    assert parse(IsoDate(lo)) == Some(Midnight(lo));
    assert parse(IsoDate(hi)) == Some(Midnight(hi));
    InstantsInRange(dateString, lo, hi, GetYearStartString(today), GetYearEndString(today), parse);
  }
}
