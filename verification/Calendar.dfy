/** Instants, event times and the one-month arithmetic of Go's time package in UTC.

    An instant is a number of microseconds since the Unix epoch, which is what PostgreSQL keeps;
    an event time is a number of milliseconds since the epoch, as the store sends it. */
module Calendar {

  type Micros = int
  type Millis = int

  const MICROS_PER_DAY := 86_400_000_000
  const MILLIS_PER_DAY := 86_400_000
  // Days from 1 January of year 1 to 1 January 1970 in the Gregorian calendar.
  const EPOCH_DAY := 719_162

  /** time.Time.UnixMilli: rounds towards the past, also before the epoch. */
  function UnixMilli(t: Micros): Millis {
    t / 1000
  }

  lemma UnixMilliRoundsDown(t: Micros)
    ensures UnixMilli(t) * 1000 <= t < UnixMilli(t) * 1000 + 1000
  {
  }

  /** The UTC calendar day an instant falls on, counted from the epoch. */
  function UtcDay(t: Micros): int {
    t / MICROS_PER_DAY
  }

  datatype Date = Date(year: int, month: int, day: int)

  predicate Leap(y: int) {
    y % 4 == 0 && (y % 100 != 0 || y % 400 == 0)
  }

  function DaysInMonth(y: int, m: int): (n: int)
    requires 1 <= m <= 12
    ensures 28 <= n <= 31
  {
    if m == 2 then if Leap(y) then 29 else 28
    else if m == 4 || m == 6 || m == 9 || m == 11 then 30
    else 31
  }

  predicate ValidDate(c: Date) {
    1 <= c.month <= 12 && 1 <= c.day <= DaysInMonth(c.year, c.month)
  }

  function DaysBeforeYear(y: int): int {
    365 * (y - 1) + (y - 1) / 4 - (y - 1) / 100 + (y - 1) / 400
  }

  function DaysBeforeMonth(y: int, m: int): int
    requires 1 <= m <= 12
  {
    [0, 31, 59, 90, 120, 151, 181, 212, 243, 273, 304, 334][m - 1] + (if m > 2 && Leap(y) then 1 else 0)
  }

  /** The day number, counted from the epoch, of a calendar date. */
  function DayNumber(c: Date): int
    requires 1 <= c.month <= 12
  {
    DaysBeforeYear(c.year) + DaysBeforeMonth(c.year, c.month) + c.day - 1 - EPOCH_DAY
  }

  function MonthOf(y: int, yearDay: int): (m: int)
    requires 0 <= yearDay < (if Leap(y) then 366 else 365)
    ensures 1 <= m <= 12
    ensures DaysBeforeMonth(y, m) <= yearDay < DaysBeforeMonth(y, m) + DaysInMonth(y, m)
  {
    var l := if Leap(y) then 1 else 0;
    if yearDay < 31 then 1
    else if yearDay < 59 + l then 2
    else if yearDay < 90 + l then 3
    else if yearDay < 120 + l then 4
    else if yearDay < 151 + l then 5
    else if yearDay < 181 + l then 6
    else if yearDay < 212 + l then 7
    else if yearDay < 243 + l then 8
    else if yearDay < 273 + l then 9
    else if yearDay < 304 + l then 10
    else if yearDay < 334 + l then 11
    else 12
  }

  /** Year and day of the year of a day number: cuts off 400-year, 100-year, 4-year and 1-year cycles. */
  function YearAndDay(n: int): (r: (int, int))
    ensures DaysBeforeYear(r.0) + r.1 == n + EPOCH_DAY
    ensures 0 <= r.1 < (if Leap(r.0) then 366 else 365)
  {
    var z := n + EPOCH_DAY;
    var a, r400 := z / 146_097, z % 146_097;
    var b := if r400 / 36_524 == 4 then 3 else r400 / 36_524;
    var r100 := r400 - 36_524 * b;
    var c, r4 := r100 / 1_461, r100 % 1_461;
    var d := if r4 / 365 == 4 then 3 else r4 / 365;
    CyclesGiveYear(a, b, c, d);
    (400 * a + 100 * b + 4 * c + d + 1, r4 - 365 * d)
  }

  lemma CyclesGiveYear(a: int, b: int, c: int, d: int)
    requires 0 <= b <= 3 && 0 <= c <= 24 && 0 <= d <= 3
    ensures var y := 400 * a + 100 * b + 4 * c + d + 1;
            && DaysBeforeYear(y) == 146_097 * a + 36_524 * b + 1_461 * c + 365 * d
            && (Leap(y) <==> d == 3 && (c != 24 || b == 3))
  {
    Fours(100 * a + 25 * b + c, d);
    Hundreds(4 * a + b, 4 * c + d);
    FourHundreds(a, 100 * b + 4 * c + d);
    if d == 3 {
      Fours(100 * a + 25 * b + c + 1, 0);
    } else {
      Fours(100 * a + 25 * b + c, d + 1);
    }
    if d == 3 && c == 24 {
      Hundreds(4 * a + b + 1, 0);
    } else {
      Hundreds(4 * a + b, 4 * c + d + 1);
    }
    if d == 3 && c == 24 && b == 3 {
      FourHundreds(a + 1, 0);
    } else {
      FourHundreds(a, 100 * b + 4 * c + d + 1);
    }
  }

  lemma Fours(q: int, r: int)
    requires 0 <= r < 4
    ensures (4 * q + r) / 4 == q && (4 * q + r) % 4 == r
  {
  }

  lemma Hundreds(q: int, r: int)
    requires 0 <= r < 100
    ensures (100 * q + r) / 100 == q && (100 * q + r) % 100 == r
  {
  }

  lemma FourHundreds(q: int, r: int)
    requires 0 <= r < 400
    ensures (400 * q + r) / 400 == q && (400 * q + r) % 400 == r
  {
  }

  /** The calendar date of a day number. */
  function CivilDate(n: int): (c: Date)
    ensures ValidDate(c)
  {
    var (y, yearDay) := YearAndDay(n);
    var m := MonthOf(y, yearDay);
    Date(y, m, yearDay - DaysBeforeMonth(y, m) + 1)
  }

  lemma YearLength(y: int)
    ensures DaysBeforeYear(y + 1) == DaysBeforeYear(y) + (if Leap(y) then 366 else 365)
  {
    FourYears(y);
    HundredYears(y);
    FourHundredYears(y);
    assert y % 400 == 0 ==> y % 100 == 0;
    assert y % 100 == 0 ==> y % 4 == 0;
  }

  lemma FourYears(y: int)
    ensures y / 4 - (y - 1) / 4 == if y % 4 == 0 then 1 else 0
  {
  }

  lemma HundredYears(y: int)
    ensures y / 100 - (y - 1) / 100 == if y % 100 == 0 then 1 else 0
  {
  }

  lemma FourHundredYears(y: int)
    ensures y / 400 - (y - 1) / 400 == if y % 400 == 0 then 1 else 0
  {
  }

  lemma {:induction false} YearsDoNotOverlap(y: int, z: int)
    requires y < z
    ensures DaysBeforeYear(y) + (if Leap(y) then 366 else 365) <= DaysBeforeYear(z)
    decreases z - y
  {
    YearLength(y);
    if y + 1 < z {
      YearsDoNotOverlap(y + 1, z);
    }
  }

  /** The conversion between dates and day numbers is a round trip both ways. */
  lemma CivilRoundTrip(n: int, c: Date)
    ensures ValidDate(CivilDate(n)) && DayNumber(CivilDate(n)) == n
    ensures ValidDate(c) ==> CivilDate(DayNumber(c)) == c
  {
    if ValidDate(c) {
      SameDayNumberSameDate(c, CivilDate(DayNumber(c)));
    }
  }

  lemma SameDayNumberSameDate(c: Date, e: Date)
    requires ValidDate(c) && ValidDate(e) && DayNumber(c) == DayNumber(e)
    ensures c == e
  {
    if c.year < e.year {
      YearsDoNotOverlap(c.year, e.year);
    } else if e.year < c.year {
      YearsDoNotOverlap(e.year, c.year);
    }
  }

  /** The day number time.Date gives, in UTC, for a month of 1 or more: a month past December moves
      into the next year, and a day past the end of its month moves into the next month. */
  function GoDate(year: int, month: int, day: int): int
    requires 1 <= month
  {
    DayNumber(Date(year + (month - 1) / 12, (month - 1) % 12 + 1, 1)) + day - 1
  }

  /** time.Time.AddDate(0, 1, 0) in UTC: the same time of the day, one calendar month later. */
  function AddOneMonth(t: Micros): Micros {
    var c := CivilDate(UtcDay(t));
    GoDate(c.year, c.month + 1, c.day) * MICROS_PER_DAY + t % MICROS_PER_DAY
  }

  /** The number of days in the month an instant falls in. */
  function MonthLength(t: Micros): (n: int)
    ensures 28 <= n <= 31
  {
    var c := CivilDate(UtcDay(t));
    DaysInMonth(c.year, c.month)
  }

  /** Adding one month moves an instant by exactly the length of the month it starts in, also on the
      31st and across the end of a year. */
  lemma AddOneMonthIsMonthLength(t: Micros)
    ensures AddOneMonth(t) == t + MonthLength(t) * MICROS_PER_DAY
  {
    NextMonthSameDay(UtcDay(t));
    SplitDay(t);
  }

  lemma SplitDay(t: Micros)
    ensures t == UtcDay(t) * MICROS_PER_DAY + t % MICROS_PER_DAY
  {
  }

  lemma NextMonthSameDay(n: int)
    ensures var c := CivilDate(n);
            GoDate(c.year, c.month + 1, c.day) == n + DaysInMonth(c.year, c.month)
  {
    var c := CivilDate(n);
    CivilRoundTrip(n, c);
    GoDateNextMonth(c);
  }

  lemma GoDateNextMonth(c: Date)
    requires ValidDate(c)
    ensures GoDate(c.year, c.month + 1, c.day) == DayNumber(c) + DaysInMonth(c.year, c.month)
  {
    NextMonthStart(c.year, c.month);
    FirstOfMonth(c);
  }

  lemma FirstOfMonth(c: Date)
    requires 1 <= c.month <= 12
    ensures DayNumber(c) == DayNumber(Date(c.year, c.month, 1)) + c.day - 1
  {
  }

  lemma NextMonthStart(y: int, m: int)
    requires 1 <= m <= 12
    ensures DayNumber(Date(y + m / 12, m % 12 + 1, 1)) == DayNumber(Date(y, m, 1)) + DaysInMonth(y, m)
  {
    if m == 12 {
      YearLength(y);
    }
  }

  /** When a grant stamped at an event time ends: one calendar month later. */
  function GrantExpiry(eventTime: Millis): (e: Micros)
    ensures eventTime * 1000 + 28 * MICROS_PER_DAY <= e <= eventTime * 1000 + 31 * MICROS_PER_DAY
    ensures UnixMilli(e) > eventTime
  {
    AddOneMonthIsMonthLength(eventTime * 1000);
    AddOneMonth(eventTime * 1000)
  }

  /** A later grant may end before an earlier one (31 January against 1 February), but by strictly
      less than three days, and never when the later one falls in a month at least as long. */
  lemma LaterGrantsEndAtMostThreeDaysEarlier(earlier: Millis, later: Millis)
    requires earlier <= later
    ensures GrantExpiry(earlier) < GrantExpiry(later) + 3 * MICROS_PER_DAY
    ensures MonthLength(earlier * 1000) <= MonthLength(later * 1000)
            ==> GrantExpiry(earlier) <= GrantExpiry(later)
  {
    GrantLastsMonthLength(earlier);
    GrantLastsMonthLength(later);
    hide GrantExpiry, MonthLength;
    var m, n := MonthLength(earlier * 1000), MonthLength(later * 1000);
    assert m <= n + 3 && (m > n ==> earlier < later);
  }

  lemma GrantLastsMonthLength(eventTime: Millis)
    ensures GrantExpiry(eventTime) == eventTime * 1000 + MonthLength(eventTime * 1000) * MICROS_PER_DAY
  {
    AddOneMonthIsMonthLength(eventTime * 1000);
  }

  /** A grant's expiry is a whole number of milliseconds, so the last_event_time that a sweep stores for it
      is the expiry itself. */
  lemma SweptGrantKeepsItsExpiry(eventTime: Millis)
    ensures UnixMilli(GrantExpiry(eventTime)) * 1000 == GrantExpiry(eventTime)
  {
    hide GrantExpiry, MonthLength;
    GrantLastsMonthLength(eventTime);
    var ms := eventTime + MonthLength(eventTime * 1000) * MILLIS_PER_DAY;
    assert GrantExpiry(eventTime) == ms * 1000;
    UnixMilliRoundsDown(ms * 1000);
  }

  /** The bound is attained up to one millisecond: the last millisecond of 31 January 2023 against the
      first of 1 February 2023. */
  lemma ThreeDayBoundIsTight()
    ensures GrantExpiry(1_675_209_599_999) == GrantExpiry(1_675_209_600_000) + 3 * MICROS_PER_DAY - 1000
  {
    hide GrantExpiry, MonthLength;
    GrantLastsMonthLength(1_675_209_599_999);
    GrantLastsMonthLength(1_675_209_600_000);
    MonthLengthOn(1_675_209_599_999_000, Date(2023, 1, 31));
    MonthLengthOn(1_675_209_600_000_000, Date(2023, 2, 1));
  }

  lemma MonthLengthOn(t: Micros, c: Date)
    requires ValidDate(c) && DayNumber(c) == UtcDay(t)
    ensures MonthLength(t) == DaysInMonth(c.year, c.month)
  {
    CivilRoundTrip(UtcDay(t), c);
  }
}
