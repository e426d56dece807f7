/** The calendar's month grid and week number, over the proleptic Gregorian calendar of
    JavaScript dates. The Date constructor reads the years 0 to 99 as 1900 to 1999. */
module Calendar {

  // ---------------------------------------------------------------- days

  datatype Date = Date(year: int, month: int, day: int)

  predicate Leap(y: int) {
    y % 4 == 0 && (y % 100 != 0 || y % 400 == 0)
  }

  /** A cycle of 400 years has a leap year every four years, but for three of its centuries. */
  lemma LeapYears(y: int)
    ensures 2000 <= y < 2400 ==> (Leap(y) <==> y != 2100 && y != 2200 && y != 2300 && exists k :: y == 2000 + 4 * k)
    ensures Leap(y + 400) <==> Leap(y)
  {
    LeapCycle(y);
    if y % 4 == 0 { assert y == 2000 + 4 * ((y - 2000) / 4); }
  }

  lemma LeapCycle(y: int)
    ensures (y + 400) % 4 == y % 4 && (y + 400) % 100 == y % 100 && (y + 400) % 400 == y % 400
  {
    Cycle4(y);
    Cycle100(y);
    Cycle400(y);
  }

  lemma Cycle400(y: int)
    ensures (y + 400) % 400 == y % 400
  {}

  lemma Cycle4(y: int)
    ensures (y + 400) % 4 == y % 4
  {}

  lemma Cycle100(y: int)
    ensures (y + 400) % 100 == y % 100
  {}

  /** The days of the twelve months, those of a leap year second. */
  lemma MonthLengths(y: int, m: int)
    requires 1 <= m <= 12
    ensures MonthLength(y, m) == [31, if Leap(y) then 29 else 28, 31, 30, 31, 30, 31, 31, 30, 31, 30, 31][m - 1]
  {}

  function MonthLength(y: int, m: int): int {
    if m == 2 then if Leap(y) then 29 else 28
    else if m == 4 || m == 6 || m == 9 || m == 11 then 30 else 31
  }

  predicate Valid(x: Date) {
    1 <= x.month <= 12 && 1 <= x.day <= MonthLength(x.year, x.month)
  }

  function Tomorrow(x: Date): (r: Date)
    requires Valid(x)
    ensures Valid(r)
  {
    if x.day < MonthLength(x.year, x.month) then x.(day := x.day + 1)
    else if x.month < 12 then Date(x.year, x.month + 1, 1)
    else Date(x.year + 1, 1, 1)
  }

  function Yesterday(x: Date): (r: Date)
    requires Valid(x)
    ensures Valid(r) && Tomorrow(r) == x
  {
    if x.day > 1 then x.(day := x.day - 1)
    else if x.month > 1 then Date(x.year, x.month - 1, MonthLength(x.year, x.month - 1))
    else Date(x.year - 1, 12, 31)
  }

  lemma YesterdayOfTomorrow(x: Date)
    requires Valid(x)
    ensures Yesterday(Tomorrow(x)) == x
  {}

  /** `k` days later. */
  function Shift(x: Date, k: int): (r: Date)
    requires Valid(x)
    ensures Valid(r)
    decreases if k < 0 then -k else k
  {
    if k == 0 then x else if k > 0 then Tomorrow(Shift(x, k - 1)) else Yesterday(Shift(x, k + 1))
  }

  lemma ShiftNext(x: Date, k: int)
    requires Valid(x)
    ensures Shift(x, k + 1) == Tomorrow(Shift(x, k))
  {}

  lemma {:induction false} ShiftTwice(x: Date, j: int, k: int)
    requires Valid(x)
    ensures Shift(Shift(x, j), k) == Shift(x, j + k)
    decreases if k < 0 then -k else k
  {
    hide Tomorrow, Yesterday;
    if k > 0 {
      ShiftTwice(x, j, k - 1);
      ShiftNext(x, j + k - 1);
    } else if k < 0 {
      ShiftTwice(x, j, k + 1);
      ShiftNext(x, j + k);
      YesterdayOfTomorrow(Shift(x, j + k));
    }
  }

  lemma {:induction false} InMonth(y: int, m: int, d: int)
    requires 1 <= m <= 12 && 1 <= d <= MonthLength(y, m)
    ensures Shift(Date(y, m, 1), d - 1) == Date(y, m, d)
    decreases d
  {
    if d > 1 { InMonth(y, m, d - 1); }
  }

  // ---------------------------------------------------------------- day numbers and weekdays

  /** `DayFromYear` of ECMA-262: days from 1970 to the start of year `y`. */
  function YearStart(y: int): int {
    365 * (y - 1970) + (y - 1969) / 4 - (y - 1901) / 100 + (y - 1601) / 400
  }

  function MonthStart(y: int, m: int): int
    requires 1 <= m <= 12
    decreases m
  {
    if m == 1 then 0 else MonthStart(y, m - 1) + MonthLength(y, m - 1)
  }

  function DayNumber(x: Date): int
    requires Valid(x)
  {
    YearStart(x.year) + MonthStart(x.year, x.month) + x.day - 1
  }

  lemma YearStep(y: int)
    ensures YearStart(y + 1) == YearStart(y) + if Leap(y) then 366 else 365
  {
    QuotientStep(y - 1969, 4);
    QuotientStep(y - 1901, 100);
    QuotientStep(y - 1601, 400);
    Residue4(y);
    Residue100(y);
    Residue400(y);
  }

  lemma QuotientStep(x: int, n: int)
    requires n == 4 || n == 100 || n == 400
    ensures (x + 1) / n == x / n + if (x + 1) % n == 0 then 1 else 0
  {
    if n == 4 {} else if n == 100 {} else {}
  }

  lemma Residue4(y: int)
    ensures (y - 1968) % 4 == 0 <==> y % 4 == 0
  {}

  lemma Residue100(y: int)
    ensures (y - 1900) % 100 == 0 <==> y % 100 == 0
    ensures y % 100 == 0 ==> y % 4 == 0
  {}

  lemma Residue400(y: int)
    ensures (y - 1600) % 400 == 0 <==> y % 400 == 0
    ensures y % 400 == 0 ==> y % 100 == 0
  {}

  lemma YearLength(y: int)
    ensures MonthStart(y, 12) + 31 == if Leap(y) then 366 else 365
  {
    assert MonthStart(y, 1) == 0;
    assert MonthStart(y, 2) == 31;
    assert MonthStart(y, 3) == 31 + MonthLength(y, 2);
    assert MonthStart(y, 4) == 62 + MonthLength(y, 2);
    assert MonthStart(y, 5) == 92 + MonthLength(y, 2);
    assert MonthStart(y, 6) == 123 + MonthLength(y, 2);
    assert MonthStart(y, 7) == 153 + MonthLength(y, 2);
    assert MonthStart(y, 8) == 184 + MonthLength(y, 2);
    assert MonthStart(y, 9) == 215 + MonthLength(y, 2);
    assert MonthStart(y, 10) == 245 + MonthLength(y, 2);
    assert MonthStart(y, 11) == 276 + MonthLength(y, 2);
  }

  /** Consecutive dates have consecutive day numbers, across every month and year end. */
  lemma NextNumber(x: Date)
    requires Valid(x)
    ensures DayNumber(Tomorrow(x)) == DayNumber(x) + 1
  {
    hide YearStart, Leap;
    if x.day == MonthLength(x.year, x.month) && x.month == 12 {
      YearStep(x.year);
      YearLength(x.year);
    }
  }

  /** The cycle has a whole number of weeks, and day 0 is 1 January 1970, a Thursday. */
  lemma CycleRepeats(x: Date)
    requires Valid(x)
    ensures Valid(x.(year := x.year + 400)) && DayNumber(x.(year := x.year + 400)) == DayNumber(x) + 146097
    ensures Weekday(x.(year := x.year + 400)) == Weekday(x)
    ensures DayNumber(Date(1970, 1, 1)) == 0 && Weekday(Date(1970, 1, 1)) == 4
  {
    var y := x.(year := x.year + 400);
    hide Weekday;
    SameYears(x.year, x.month);
    DayZero();
    hide Leap, YearStart, MonthStart, MonthLength;
    CycleQuotients(x.year);
    assert DayNumber(y) == DayNumber(x) + 146097;
    SameWeekday(x, y);
  }

  lemma SameWeekday(x: Date, y: Date)
    requires Valid(x) && Valid(y) && DayNumber(y) == DayNumber(x) + 7 * 20871
    ensures Weekday(y) == Weekday(x)
  {
    hide DayNumber, Valid;
  }

  lemma DayZero()
    ensures DayNumber(Date(1970, 1, 1)) == 0 && Weekday(Date(1970, 1, 1)) == 4
  {
    YearZero();
    hide YearStart, Leap;
  }

  lemma YearZero()
    ensures YearStart(1970) == 0
  {}

  lemma SameYears(y: int, m: int)
    requires 1 <= m <= 12
    ensures MonthLength(y + 400, m) == MonthLength(y, m) && MonthStart(y + 400, m) == MonthStart(y, m)
  {
    LeapYears(y);
    hide Leap;
    SameMonths(y, y + 400, m);
  }

  lemma CycleQuotients(y: int)
    ensures YearStart(y + 400) == YearStart(y) + 146097
  {
    Quotients400(y - 1969);
    Quotients400(y - 1901);
    Quotients400(y - 1601);
  }

  lemma Quotients400(x: int)
    ensures (x + 400) / 4 == x / 4 + 100 && (x + 400) / 100 == x / 100 + 4 && (x + 400) / 400 == x / 400 + 1
  {
    Quotients100(x);
  }

  lemma Quotients100(x: int)
    ensures (x + 400) / 100 == x / 100 + 4
  {}

  lemma {:induction false} SameMonths(y: int, z: int, m: int)
    requires 1 <= m <= 12 && (Leap(y) <==> Leap(z))
    ensures MonthStart(y, m) == MonthStart(z, m)
    decreases m
  {
    hide Leap;
    if m > 1 { SameMonths(y, z, m - 1); }
  }

  lemma {:induction false} ShiftNumber(x: Date, k: int)
    requires Valid(x)
    ensures DayNumber(Shift(x, k)) == DayNumber(x) + k
    decreases if k < 0 then -k else k
  {
    hide DayNumber, Tomorrow, Yesterday;
    if k > 0 {
      ShiftNumber(x, k - 1);
      NextNumber(Shift(x, k - 1));
    } else if k < 0 {
      ShiftNumber(x, k + 1);
      NextNumber(Shift(x, k));
    }
  }

  /** `getDay()`: 0 is Sunday. */
  function Weekday(x: Date): (w: int)
    requires Valid(x)
    ensures 0 <= w < 7
  {
    (DayNumber(x) + 4) % 7
  }

  lemma ShiftWeekday(x: Date, k: int)
    requires Valid(x)
    ensures Weekday(Shift(x, k)) == (Weekday(x) + k) % 7
  {
    hide DayNumber, Shift;
    ShiftNumber(x, k);
    SumMod7(DayNumber(x) + 4, k);
  }

  lemma SumMod7(a: int, b: int)
    ensures (a + b) % 7 == (a % 7 + b) % 7
  {}

  // ---------------------------------------------------------------- week number

  /** The Thursdays among the first `n` days of year `y`. */
  ghost function Thursdays(y: int, n: nat): nat {
    if n == 0 then 0 else Thursdays(y, n - 1) + if Weekday(Shift(Date(y, 1, 1), n - 1)) == 4 then 1 else 0
  }

  /** A Thursday's ordinal is one more than the number of weeks before it. */
  lemma {:induction false} ThursdayOrdinal(y: int, k: nat)
    requires Weekday(Shift(Date(y, 1, 1), k)) == 4
    ensures Thursdays(y, k + 1) == k / 7 + 1
  {
    var jan1 := Date(y, 1, 1);
    var w := Weekday(jan1);
    ShiftWeekday(jan1, k);
    hide Weekday, Shift;
    if k >= 7 {
      ShiftWeekday(jan1, k - 7);
      assert (w + (k - 7)) % 7 == (w + k) % 7;
      ThursdayOrdinal(y, k - 7);
      SixOthers(y, k, w);
    } else {
      NoEarlier(y, k, k, w);
    }
  }

  /** Between two Thursdays there is none. */
  lemma SixOthers(y: int, k: nat, w: int)
    requires k >= 7 && w == Weekday(Date(y, 1, 1)) && (w + k) % 7 == 4
    ensures Thursdays(y, k + 1) == Thursdays(y, k - 6) + 1
  {
    var jan1 := Date(y, 1, 1);
    hide Weekday, Shift;
    ShiftWeekday(jan1, k); ShiftWeekday(jan1, k - 1); ShiftWeekday(jan1, k - 2); ShiftWeekday(jan1, k - 3);
    ShiftWeekday(jan1, k - 4); ShiftWeekday(jan1, k - 5); ShiftWeekday(jan1, k - 6);
    Others(w + k);
    assert Thursdays(y, k - 5) == Thursdays(y, k - 6);
    assert Thursdays(y, k - 4) == Thursdays(y, k - 6);
    assert Thursdays(y, k - 3) == Thursdays(y, k - 6);
    assert Thursdays(y, k - 2) == Thursdays(y, k - 6);
    assert Thursdays(y, k - 1) == Thursdays(y, k - 6);
    assert Thursdays(y, k) == Thursdays(y, k - 6);
  }

  lemma Others(s: int)
    requires s % 7 == 4
    ensures (s - 1) % 7 == 3 && (s - 2) % 7 == 2 && (s - 3) % 7 == 1 && (s - 4) % 7 == 0 && (s - 5) % 7 == 6 && (s - 6) % 7 == 5
  {}

  lemma {:induction false} NoEarlier(y: int, k: nat, n: nat, w: int)
    requires n <= k < 7 && w == Weekday(Date(y, 1, 1)) && (w + k) % 7 == 4
    ensures Thursdays(y, n) == 0 && (n == k ==> Thursdays(y, k + 1) == 1)
    decreases n
  {
    hide Weekday, Shift;
    ShiftWeekday(Date(y, 1, 1), k);
    if n > 0 {
      NoEarlier(y, k, n - 1, w);
      ShiftWeekday(Date(y, 1, 1), n - 1);
      assert (w + n - 1) % 7 != (w + k) % 7;
    }
  }

  /** The Thursday of the week that starts on a Monday and holds `x`. */
  function ThursdayOf(x: Date): (t: Date)
    requires Valid(x)
    ensures Valid(t)
  {
    Shift(x, 4 - if Weekday(x) == 0 then 7 else Weekday(x))
  }

  /** Section 2.2.10 of ISO 8601:2004: the ordinal, within its year, of the week's Thursday. */
  ghost function IsoWeek(x: Date): nat
    requires Valid(x)
  {
    var t := ThursdayOf(x);
    DayOfYear(t);
    Thursdays(t.year, DayNumber(t) - YearStart(t.year) + 1)
  }

  const DAY_MS: int := 86400000

  /** `Math.round(ms / 86400000)` */
  function RoundDays(ms: int): int {
    (2 * ms + DAY_MS) / (2 * DAY_MS)
  }

  /** `drift` is what summer time adds to or takes from the time between two local times of
      day; it is less than half a day, and rounding removes it. */
  method GetWeekNumber(x: Date, drift: int) returns (week: int)
    requires Valid(x) && -DAY_MS < 2 * drift < DAY_MS
    ensures week == IsoWeek(x)
  {
    var date := Shift(x, 4 - if Weekday(x) == 0 then 7 else Weekday(x));
    var time := DayNumber(date);
    date := Date(date.year, 1, date.day);
    date := Date(date.year, date.month, 1);
    week := RoundDays((time - DayNumber(date)) * DAY_MS + drift) / 7 + 1;
    WeekIsIso(x, drift);
  }

  lemma WeekIsIso(x: Date, drift: int)
    requires Valid(x) && -DAY_MS < 2 * drift < DAY_MS
    ensures var t := ThursdayOf(x);
            RoundDays((DayNumber(t) - YearStart(t.year)) * DAY_MS + drift) / 7 + 1 == IsoWeek(x)
    ensures forall y :: DayNumber(Date(y, 1, 1)) == YearStart(y)
  {
    var t := ThursdayOf(x);
    var jan1 := Date(t.year, 1, 1);
    var k := DayNumber(t) - YearStart(t.year);
    IsThursday(x);
    DayOfYear(t);
    hide Weekday, Shift, YearStart, ThursdayOf;
    ThursdayOrdinal(t.year, k);
  }

  lemma IsThursday(x: Date)
    requires Valid(x)
    ensures Weekday(ThursdayOf(x)) == 4
    ensures DayNumber(x) - 3 <= DayNumber(ThursdayOf(x)) <= DayNumber(x) + 3
  {
    hide Weekday, Shift, DayNumber;
    var w := Weekday(x);
    ShiftWeekday(x, 4 - if w == 0 then 7 else w);
    ShiftNumber(x, 4 - if w == 0 then 7 else w);
  }

  lemma DayOfYear(t: Date)
    requires Valid(t)
    ensures 0 <= DayNumber(t) - YearStart(t.year) && Shift(Date(t.year, 1, 1), DayNumber(t) - YearStart(t.year)) == t
  {
    MonthOffset(t.year, t.month);
    InMonth(t.year, t.month, t.day);
    ShiftTwice(Date(t.year, 1, 1), MonthStart(t.year, t.month), t.day - 1);
  }

  lemma {:induction false} MonthOffset(y: int, m: int)
    requires 1 <= m <= 12
    ensures 0 <= MonthStart(y, m) && Shift(Date(y, 1, 1), MonthStart(y, m)) == Date(y, m, 1)
    decreases m
  {
    if m > 1 {
      MonthOffset(y, m - 1);
      var n := MonthLength(y, m - 1);
      InMonth(y, m - 1, n);
      ShiftTwice(Date(y, 1, 1), MonthStart(y, m - 1), n - 1);
      ShiftNext(Date(y, 1, 1), MonthStart(y, m - 1) + n - 1);
    }
  }

  // ---------------------------------------------------------------- the month grid

  /** `new Date(y, m - 1, d)`: years 0 to 99 mean 1900 to 1999, and days run over the ends of
      the month. */
  function JsDate(y: int, m: int, d: int): (r: Date)
    requires 1 <= m <= 12
    ensures Valid(r)
  {
    Shift(Date(if 0 <= y <= 99 then 1900 + y else y, m, 1), d - 1)
  }

  /** `new Date(y, m, 0).getDate()` */
  function DaysIn(y: int, m: int): (n: int)
    requires 1 <= m <= 12
    ensures 28 <= n <= 31
  {
    MonthLength(if 0 <= y <= 99 then 1900 + y else y, m)
  }

  /** The day before the first of the next month, counted from this month's first. */
  lemma LastDay(y: int, m: int)
    requires 1 <= m <= 12
    ensures JsDate(y, m, DaysIn(y, m)).day == DaysIn(y, m)
    ensures var y1 := if 0 <= y <= 99 then 1900 + y else y;
            Tomorrow(JsDate(y, m, DaysIn(y, m))) == if m < 12 then Date(y1, m + 1, 1) else Date(y1 + 1, 1, 1)
  {
    InMonth(if 0 <= y <= 99 then 1900 + y else y, m, DaysIn(y, m));
  }

  function JsYesterday(c: Date): (r: Date)
    requires 1 <= c.month <= 12
    ensures Valid(r)
  {
    JsDate(c.year, c.month, c.day - 1)
  }

  function JsTomorrow(c: Date): (r: Date)
    requires 1 <= c.month <= 12
    ensures Valid(r)
  {
    JsDate(c.year, c.month, c.day + 1)
  }

  predicate Months(s: seq<Date>) {
    forall i :: 0 <= i < |s| ==> 1 <= s[i].month <= 12
  }

  /** `k` days before `c`, each taken from the one after it. */
  function Back(c: Date, k: nat): (r: seq<Date>)
    requires 1 <= c.month <= 12
    ensures |r| == k && Months(r)
    decreases k
  {
    if k == 0 then [] else
      var rest := Back(c, k - 1);
      [JsYesterday(if rest == [] then c else rest[0])] + rest
  }

  /** `k` days after `c`, each taken from the one before it. */
  function Ahead(c: Date, k: nat): (r: seq<Date>)
    requires 1 <= c.month <= 12
    ensures |r| == k && Months(r)
    decreases k
  {
    if k == 0 then [] else
      var rest := Ahead(c, k - 1);
      rest + [JsTomorrow(if rest == [] then c else rest[|rest| - 1])]
  }

  /** Days `from` to `from + k - 1` off `c`, each taken from `c` itself. */
  function Off(c: Date, from: int, k: nat): (r: seq<Date>)
    requires 1 <= c.month <= 12
    ensures |r| == k && Months(r)
  {
    if k == 0 then [] else Off(c, from, k - 1) + [JsDate(c.year, c.month, c.day + from + k - 1)]
  }

  /** The days of the month as they are pushed first: with the year as it was given. */
  function MonthDays(y: int, m: int, a: int, b: int): (r: seq<Date>)
    requires a <= b
    ensures |r| == b - a
  {
    seq(b - a, i requires 0 <= i < b - a => Date(y, m, a + i))
  }

  /** How many columns the first of the month stands from the left. */
  function Offset(y: int, m: int, firstDay: int): (o: int)
    requires 1 <= m <= 12
    ensures 0 <= o < 7
  {
    (Weekday(JsDate(y, m, 1)) - firstDay) % 7
  }

  function Lead(y: int, m: int, firstDay: int): (before: seq<Date>)
    requires 1 <= m <= 12
    ensures Months(before)
  {
    var o := Offset(y, m, firstDay);
    if o == 0 then Off(Date(y, m, 1), -7, 7) else Back(Date(y, m, 1), o)
  }

  /** The number of days that complete the last week of the month. */
  function Missing(y: int, m: int, firstDay: int): (t: nat)
    requires 1 <= m <= 12
    ensures t < 7 && (Offset(y, m, firstDay) + DaysIn(y, m) + t) % 7 == 0
  {
    ToWeekEnd(Offset(y, m, firstDay) + DaysIn(y, m))
  }

  function ToWeekEnd(x: int): (t: nat)
    ensures t < 7 && (x + t) % 7 == 0
  {
    (7 - x % 7) % 7
  }

  /** The rows up to the end of that week. */
  function RowCount(y: int, m: int, firstDay: int): (n: int)
    requires 1 <= m <= 12
    ensures n == 5 || n == 6
  {
    var o := Offset(y, m, firstDay);
    (o + DaysIn(y, m) + Missing(y, m, firstDay)) / 7 + if o == 0 then 1 else 0
  }

  /** What is put after the last day: the `t` days its week lacks and, below `n < 6` rows, one
      more week. */
  function Completion(last: Date, t: nat, n: int): (after: seq<Date>)
    requires 1 <= last.month <= 12
    ensures Months(after) && |after| == t + if n < 6 then 7 else 0
  {
    var fill := Ahead(last, t);
    fill + if n < 6 then Off(if t == 0 then last else fill[t - 1], 1, 7) else []
  }

  function Tail(y: int, m: int, firstDay: int): (after: seq<Date>)
    requires 1 <= m <= 12
    ensures Months(after)
  {
    Completion(Date(y, m, DaysIn(y, m)), Missing(y, m, firstDay), RowCount(y, m, firstDay))
  }

  /** The cells of the grid, from left to right and top to bottom. */
  function Cells(y: int, m: int, firstDay: int): (cells: seq<Date>)
    requires 1 <= m <= 12
    ensures |cells| == 42 && Months(cells)
  {
    SixWeeks(y, m, firstDay);
    Lead(y, m, firstDay) + MonthDays(y, m, 1, DaysIn(y, m) + 1) + Tail(y, m, firstDay)
  }

  lemma SixWeeks(y: int, m: int, firstDay: int)
    requires 1 <= m <= 12
    ensures var cells := Lead(y, m, firstDay) + MonthDays(y, m, 1, DaysIn(y, m) + 1) + Tail(y, m, firstDay);
            |cells| == 42 && Months(cells)
  {
    CountWeeks(y, m, firstDay);
    MonthStarts(y, m, DaysIn(y, m));
    hide Offset, DaysIn, Lead, Tail, Months, MonthDays;
    BothMonths(Lead(y, m, firstDay), MonthDays(y, m, 1, DaysIn(y, m) + 1));
    BothMonths(Lead(y, m, firstDay) + MonthDays(y, m, 1, DaysIn(y, m) + 1), Tail(y, m, firstDay));
  }

  lemma CountWeeks(y: int, m: int, firstDay: int)
    requires 1 <= m <= 12
    ensures |Lead(y, m, firstDay)| + DaysIn(y, m) + |Tail(y, m, firstDay)| == 42
  {
    hide Offset, DaysIn, ToWeekEnd, Completion, Off, Back;
  }

  // ---------------------------------------------------------------- how the grid is built

  ghost function Concat(weeks: seq<seq<Date>>): seq<Date> {
    if weeks == [] then [] else Concat(weeks[..|weeks| - 1]) + weeks[|weeks| - 1]
  }

  lemma Pushed(weeks: seq<seq<Date>>, w: seq<Date>)
    ensures Concat(weeks + [w]) == Concat(weeks) + w
  {
    assert (weeks + [w])[..|weeks|] == weeks;
  }

  lemma {:induction false} Unshifted(weeks: seq<seq<Date>>, w: seq<Date>)
    ensures Concat([w] + weeks) == w + Concat(weeks)
  {
    if weeks == [] {
      assert [w] + weeks == [] + [w];
      assert w == w + [] && [] + w == w;
      Pushed([], w);
    } else {
      var n := |weeks| - 1;
      Unshifted(weeks[..n], w);
      assert ([w] + weeks)[..n + 1] == [w] + weeks[..n];
      assert w + (Concat(weeks[..n]) + weeks[n]) == (w + Concat(weeks[..n])) + weeks[n];
    }
  }

  /** Every row is a full week, except that the first may be shorter. */
  ghost predicate Rows(weeks: seq<seq<Date>>, n: int, firstRow: int) {
    && |weeks| == n
    && forall r :: 0 <= r < n ==> |weeks[r]| == if r == 0 then firstRow else 7
  }

  function EndOfWeek(firstDay: int): int {
    (if firstDay == 0 then 7 else firstDay) - 1
  }

  /** `i` days have been put into rows. */
  ghost predicate Rowing(y: int, m: int, o: int, i: nat, weeks: seq<seq<Date>>, week: seq<Date>) {
    && 0 <= o < 7
    && Concat(weeks) + week == MonthDays(y, m, 1, i + 1)
    && Rows(weeks, (o + i) / 7, 7 - o)
    && |week| == if o + i < 7 then i else (o + i) % 7
  }

  lemma DayOfRow(y: int, m: int, f: int, i: nat)
    requires 1 <= m <= 12 && 0 <= f <= 6
    ensures Weekday(JsDate(y, m, i + 1)) == EndOfWeek(f) <==> (Offset(y, m, f) + i + 1) % 7 == 0
    ensures Weekday(JsDate(y, m, i)) != Weekday(JsDate(y, m, i + 1))
  {
    hide Weekday, Shift, MonthLength;
    var first := Date(if 0 <= y <= 99 then 1900 + y else y, m, 1);
    JsFirst(y, m);
    ShiftWeekday(first, i);
    ShiftWeekday(first, i - 1);
    EndOfRow(Weekday(first), f, i);
  }

  lemma JsFirst(y: int, m: int)
    requires 1 <= m <= 12
    ensures JsDate(y, m, 1) == Date(if 0 <= y <= 99 then 1900 + y else y, m, 1)
  {}

  lemma EndOfRow(w: int, f: int, i: int)
    requires 0 <= f <= 6
    ensures (w + i) % 7 == EndOfWeek(f) <==> ((w - f) % 7 + i + 1) % 7 == 0
    ensures (w + (i - 1)) % 7 != (w + i) % 7
  {
    SumMod7(w - f, i + 1);
  }

  lemma RowEnds(y: int, m: int, o: int, i: nat, weeks: seq<seq<Date>>, week: seq<Date>)
    requires Rowing(y, m, o, i, weeks, week) && (o + i + 1) % 7 == 0
    ensures Rowing(y, m, o, i + 1, weeks + [week + [Date(y, m, i + 1)]], [])
  {
    var row := week + [Date(y, m, i + 1)];
    Pushed(weeks, row);
    assert Concat(weeks) + row == (Concat(weeks) + week) + [Date(y, m, i + 1)];
    assert Concat(weeks + [row]) + [] == Concat(weeks + [row]);
    hide Concat;
  }

  lemma RowGoesOn(y: int, m: int, o: int, i: nat, weeks: seq<seq<Date>>, week: seq<Date>)
    requires Rowing(y, m, o, i, weeks, week) && (o + i + 1) % 7 != 0
    ensures Rowing(y, m, o, i + 1, weeks, week + [Date(y, m, i + 1)])
  {
    var row := week + [Date(y, m, i + 1)];
    assert Concat(weeks) + row == (Concat(weeks) + week) + [Date(y, m, i + 1)];
    hide Concat;
  }

  /** The rows that `n` cells fill, the last one perhaps in part. */
  function RowsIn(n: int): int {
    (n + 6) / 7
  }

  function InLastRow(n: int): (left: int)
    ensures 1 <= left <= 7
  {
    (n + 6) % 7 + 1
  }

  /** The month in rows of weeks: the first is `7 - o` days and the last is what is left. */
  ghost predicate InRows(weeks: seq<seq<Date>>, days: seq<Date>, o: int) {
    && 0 <= o < 7 && |days| >= 14
    && Concat(weeks) == days
    && |weeks| == RowsIn(o + |days|)
    && |weeks[|weeks| - 1]| == InLastRow(o + |days|)
    && forall r :: 0 <= r < |weeks| - 1 ==> |weeks[r]| == if r == 0 then 7 - o else 7
  }

  lemma LastRow(y: int, m: int, o: int, n: nat, weeks: seq<seq<Date>>, week: seq<Date>)
    requires Rowing(y, m, o, n, weeks, week) && n >= 14
    ensures InRows(if |week| > 0 then weeks + [week] else weeks, MonthDays(y, m, 1, n + 1), o)
  {
    Pushed(weeks, week);
    assert Concat(weeks) + [] == Concat(weeks);
    hide Concat;
  }

  /** The days of the month in rows: a row ends on the last day of the week. */
  method MonthRows(y: int, m: int, firstDay: int) returns (weeks: seq<seq<Date>>)
    requires 1 <= m <= 12 && 0 <= firstDay <= 6
    ensures InRows(weeks, MonthDays(y, m, 1, DaysIn(y, m) + 1), Offset(y, m, firstDay))
  {
    hide Weekday, JsDate, Concat, DaysIn, Offset;
    var days := [];
    var count := DaysIn(y, m);
    for i := 1 to count + 1
      invariant days == MonthDays(y, m, 1, i)
    {
      days := days + [Date(y, m, i)];
    }
    ghost var o := Offset(y, m, firstDay);
    ghost var i := 0;
    weeks := [];
    var week: seq<Date> := [];
    var previous := -1;
    NoRows(y, m, o);
    while |days| > 0
      invariant 0 <= i <= count && days == MonthDays(y, m, i + 1, count + 1)
      invariant Rowing(y, m, o, i, weeks, week)
      invariant previous == if i == 0 then -1 else Weekday(JsDate(y, m, i))
      decreases |days|
    {
      hide Rowing;
      var date := days[0];
      days := days[1..];
      DayOfRow(y, m, firstDay, i);
      if (o + i + 1) % 7 == 0 { RowEnds(y, m, o, i, weeks, week); } else { RowGoesOn(y, m, o, i, weeks, week); }
      week := week + [date];
      var day := Weekday(JsDate(date.year, date.month, date.day));
      if previous == day {
        day := 0;
      } else if day == (if firstDay == 0 then 7 else firstDay) - 1 {
        weeks := weeks + [week];
        week := [];
      }
      previous := day;
      i := i + 1;
    }
    LastRow(y, m, o, count, weeks, week);
    if |week| > 0 {
      weeks := weeks + [week];
    }
  }

  lemma NoRows(y: int, m: int, o: int)
    requires 0 <= o < 7
    ensures Rowing(y, m, o, 0, [], [])
  {
    assert Concat([]) + [] == [];
  }

  lemma OffGrows(c: Date, from: int, k: nat)
    requires 1 <= c.month <= 12
    ensures Off(c, from, k + 1) == [JsDate(c.year, c.month, c.day + from)] + Off(c, from + 1, k)
  {
    hide JsDate;
    if k > 0 { OffGrows(c, from, k - 1); }
  }

  lemma FirstRow(weeks: seq<seq<Date>>)
    requires weeks != []
    ensures Concat(weeks) == weeks[0] + Concat(weeks[1..])
  {
    Unshifted(weeks[1..], weeks[0]);
    assert weeks == [weeks[0]] + weeks[1..];
  }

  /** Longer by `lead` in front. */
  lemma FrontGrown(rows: seq<seq<Date>>, weeks: seq<seq<Date>>, lead: seq<Date>)
    requires GrownInFront(rows, weeks, lead)
    ensures Concat(weeks) == lead + Concat(rows)
  {
    FirstRow(rows);
    FirstRow(weeks);
    hide Concat;
    assert lead + (rows[0] + Concat(rows[1..])) == (lead + rows[0]) + Concat(rows[1..]);
  }

  lemma EndGrown(rows: seq<seq<Date>>, weeks: seq<seq<Date>>, fill: seq<Date>)
    requires var n := |rows| - 1; n >= 0 && |weeks| == |rows| && weeks[n] == rows[n] + fill && weeks[..n] == rows[..n]
    ensures Concat(weeks) == Concat(rows) + fill
  {
    var n := |rows| - 1;
    assert Concat(rows[..n]) + (rows[n] + fill) == (Concat(rows[..n]) + rows[n]) + fill;
  }

  /** `n` rows of a week each, of which the last still has `last` days. */
  ghost predicate Filled(weeks: seq<seq<Date>>, cells: seq<Date>, n: int, last: int) {
    && 1 <= last <= 7 && n >= 1
    && Concat(weeks) == cells
    && |weeks| == n
    && |weeks[n - 1]| == last
    && forall r :: 0 <= r < n - 1 ==> |weeks[r]| == 7
  }

  method WeekBefore(c: Date) returns (week: seq<Date>)
    requires 1 <= c.month <= 12
    ensures week == Off(c, -7, 7)
  {
    hide JsDate;
    week := [];
    for i := 1 to 8
      invariant week == Off(c, 1 - i, i - 1)
    {
      OffGrows(c, -i, i - 1);
      week := [JsDate(c.year, c.month, c.day - i)] + week;
    }
  }

  method WeekAfter(c: Date) returns (week: seq<Date>)
    requires 1 <= c.month <= 12
    ensures week == Off(c, 1, 7)
  {
    hide JsDate;
    week := [];
    for i := 1 to 8
      invariant week == Off(c, 1, i - 1)
    {
      week := week + [JsDate(c.year, c.month, c.day + i)];
    }
  }

  predicate GrownInFront(rows: seq<seq<Date>>, weeks: seq<seq<Date>>, lead: seq<Date>) {
    && |weeks| == |rows| >= 1
    && weeks[0] == lead + rows[0]
    && weeks[1..] == rows[1..]
  }

  lemma FrontGrows(rows: seq<seq<Date>>, weeks: seq<seq<Date>>, lead: seq<Date>, d: Date)
    requires GrownInFront(rows, weeks, lead)
    ensures GrownInFront(rows, weeks[0 := [d] + weeks[0]], [d] + lead)
  {}

  /** Days are put in front of the first row, each the day before the first one there. */
  method ExtendFirst(rows: seq<seq<Date>>) returns (weeks: seq<seq<Date>>)
    requires rows != [] && 1 <= |rows[0]| <= 7 && Months(rows[0])
    ensures GrownInFront(rows, weeks, Back(rows[0][0], 7 - |rows[0]|))
  {
    hide JsDate;
    weeks := rows;
    ghost var lead := [];
    while |weeks[0]| < 7
      invariant |lead| + |rows[0]| <= 7 && lead == Back(rows[0][0], |lead|)
      invariant GrownInFront(rows, weeks, lead)
    {
      var c := weeks[0][0];
      FrontGrows(rows, weeks, lead, JsYesterday(c));
      lead := [JsYesterday(c)] + lead;
      weeks := weeks[0 := [JsDate(c.year, c.month, c.day - 1)] + weeks[0]];
    }
  }

  /** Days are put at the end of the last row, each the day after the last one there. */
  method ExtendLast(rows: seq<seq<Date>>) returns (weeks: seq<seq<Date>>)
    requires var n := |rows| - 1; n >= 0 && 1 <= |rows[n]| <= 7 && Months(rows[n])
    ensures var n := |rows| - 1;
            && |weeks| == |rows| && weeks[..n] == rows[..n]
            && weeks[n] == rows[n] + Ahead(rows[n][|rows[n]| - 1], 7 - |rows[n]|)
  {
    hide JsDate;
    weeks := rows;
    var n := |rows| - 1;
    ghost var fill := [];
    while |weeks[n]| < 7
      invariant |fill| + |rows[n]| <= 7 && fill == Ahead(rows[n][|rows[n]| - 1], |fill|)
      invariant |weeks| == |rows| && weeks[n] == rows[n] + fill && weeks[..n] == rows[..n]
    {
      var c := weeks[n][|weeks[n]| - 1];
      fill := fill + [JsTomorrow(c)];
      weeks := weeks[n := weeks[n] + [JsDate(c.year, c.month, c.day + 1)]];
    }
  }

  lemma Heads(rows: seq<seq<Date>>, days: seq<Date>, o: int)
    requires InRows(rows, days, o) && Months(days)
    ensures |rows| >= 2 && |rows[0]| == 7 - o && rows[0][0] == days[0] && Months(rows[0])
  {
    FirstRow(rows);
    hide Concat;
    assert forall i :: 0 <= i < |rows[0]| ==> rows[0][i] == days[i];
  }

  lemma LastCells(rows: seq<seq<Date>>, cells: seq<Date>, n: int, left: int)
    requires Filled(rows, cells, n, left) && Months(cells)
    ensures |rows| == n >= 1 && |cells| >= 1 && 1 <= cells[|cells| - 1].month <= 12
    ensures |rows[n - 1]| == left && 1 <= left <= 7 && |cells| >= left && rows[n - 1][left - 1] == cells[|cells| - 1] && Months(rows[n - 1])
  {
    LastOf(Concat(rows[..n - 1]), rows[n - 1]);
    assert cells == Concat(rows[..n - 1]) + rows[n - 1];
    hide Concat;
  }

  lemma LastOf(before: seq<Date>, row: seq<Date>)
    requires row != []
    ensures (before + row)[|before + row| - 1] == row[|row| - 1]
    ensures Months(before + row) ==> Months(row)
  {
    forall i | 0 <= i < |row|
      ensures row[i] == (before + row)[|before| + i]
    {}
  }

  lemma FilledFront(rows: seq<seq<Date>>, weeks: seq<seq<Date>>, days: seq<Date>, o: int, lead: seq<Date>)
    requires InRows(rows, days, o) && o != 0 && |lead| == o
    requires |rows| >= 2 && GrownInFront(rows, weeks, lead)
    ensures Filled(weeks, lead + days, |rows|, InLastRow(o + |days|))
  {
    FrontGrown(rows, weeks, lead);
    hide Concat;
    forall r | 1 <= r < |rows|
      ensures weeks[r] == rows[r]
    {
      assert weeks[1..][r - 1] == rows[1..][r - 1];
    }
  }

  lemma WeekInFront(rows: seq<seq<Date>>, days: seq<Date>, week: seq<Date>)
    requires InRows(rows, days, 0) && |week| == 7
    ensures Filled([week] + rows, week + days, |rows| + 1, InLastRow(|days|))
  {
    Unshifted(rows, week);
    hide Concat;
  }

  lemma FilledEnd(rows: seq<seq<Date>>, weeks: seq<seq<Date>>, cells: seq<Date>, n: int, left: int, fill: seq<Date>)
    requires Filled(rows, cells, n, left) && |fill| == 7 - left
    requires |weeks| == |rows| && weeks[..n - 1] == rows[..n - 1] && weeks[n - 1] == rows[n - 1] + fill
    ensures Filled(weeks, cells + fill, n, 7)
  {
    EndGrown(rows, weeks, fill);
    hide Concat;
    forall r | 0 <= r < n - 1
      ensures weeks[r] == rows[r]
    {
      assert weeks[..n - 1][r] == rows[..n - 1][r];
    }
  }

  lemma WeekAtEnd(weeks: seq<seq<Date>>, cells: seq<Date>, n: int, week: seq<Date>)
    requires Filled(weeks, cells, n, 7) && |week| == 7
    ensures Filled(weeks + [week], cells + week, n + 1, 7)
  {
    Pushed(weeks, week);
    hide Concat;
  }

  /** The last row is filled up, and a week is put after it when the rows are fewer than six. */
  method FillEnd(rows: seq<seq<Date>>, ghost cells: seq<Date>, ghost n: int, ghost left: int) returns (weeks: seq<seq<Date>>)
    requires Filled(rows, cells, n, left) && Months(cells) && |cells| >= 1
    ensures Filled(weeks, cells + Completion(cells[|cells| - 1], 7 - left, n), if n < 6 then n + 1 else n, 7)
  {
    hide *;
    LastCells(rows, cells, n, left);
    ghost var fill := Ahead(cells[|cells| - 1], 7 - left);
    CompletedBy(cells, cells[|cells| - 1], 7 - left, n);
    weeks := ExtendLast(rows);
    FilledEnd(rows, weeks, cells, n, left, fill);
    BothMonths(cells, fill);
    LastCells(weeks, cells + fill, n, 7);
    if |weeks| < 6 {
      var end := weeks[|weeks| - 1];
      var week := WeekAfter(end[|end| - 1]);
      WeekAtEnd(weeks, cells + fill, n, week);
      weeks := weeks + [week];
    }
  }

  lemma CompletedBy(cells: seq<Date>, last: Date, t: nat, n: int)
    requires 1 <= last.month <= 12
    ensures var fill := Ahead(last, t);
            cells + Completion(last, t, n) ==
            if n < 6 then (cells + fill) + Off(if t == 0 then last else fill[t - 1], 1, 7) else cells + fill
  {
    hide Ahead, Off;
  }

  ghost predicate IsGrid(weeks: seq<seq<Date>>, cells: seq<Date>) {
    && |weeks| == 6
    && (forall r :: 0 <= r < 6 ==> |weeks[r]| == 7)
    && Concat(weeks) == cells
  }

  /** What has been put before and after the days makes up the cells. */
  lemma AllCells(y: int, m: int, f: int, days: seq<Date>, cells: seq<Date>)
    requires 1 <= m <= 12 && days == MonthDays(y, m, 1, DaysIn(y, m) + 1) && cells == Lead(y, m, f) + days
    ensures var left := InLastRow(Offset(y, m, f) + |days|);
            Cells(y, m, f) == cells + Completion(cells[|cells| - 1], 7 - left, RowCount(y, m, f))
  {
    hide DaysIn, Offset, RowCount, Missing, Lead, Completion, InLastRow, RowsIn;
    assert days[|days| - 1] == Date(y, m, DaysIn(y, m));
    assert cells[|cells| - 1] == Date(y, m, DaysIn(y, m));
    Counts(y, m, f);
  }

  lemma Counts(y: int, m: int, f: int)
    requires 1 <= m <= 12
    ensures var o, n := Offset(y, m, f), DaysIn(y, m);
            && Missing(y, m, f) == 7 - InLastRow(o + n)
            && RowCount(y, m, f) == RowsIn(o + n) + if o == 0 then 1 else 0
  {
    LeftOver(Offset(y, m, f) + DaysIn(y, m));
    hide Offset, DaysIn, ToWeekEnd, InLastRow, RowsIn;
  }

  lemma LeftOver(x: int)
    ensures 7 - InLastRow(x) == ToWeekEnd(x)
    ensures RowsIn(x) == (x + ToWeekEnd(x)) / 7
  {}

  /** The first row is filled from its first day on, or else a week is put before it. */
  method FillFront(rows: seq<seq<Date>>, ghost days: seq<Date>, ghost o: int) returns (weeks: seq<seq<Date>>)
    requires InRows(rows, days, o) && Months(days)
    ensures Filled(weeks, (if o == 0 then Off(days[0], -7, 7) else Back(days[0], o)) + days,
                   |rows| + (if o == 0 then 1 else 0), InLastRow(o + |days|))
  {
    Heads(rows, days, o);
    hide Concat, Off, Back, InRows, Filled, GrownInFront;
    if |rows[0]| < 7 {
      weeks := ExtendFirst(rows);
      FilledFront(rows, weeks, days, o, Back(days[0], o));
    } else {
      var week := WeekBefore(rows[0][0]);
      WeekInFront(rows, days, week);
      weeks := [week] + rows;
    }
  }

  lemma MonthStarts(y: int, m: int, n: nat)
    requires 1 <= m <= 12 && n > 0
    ensures Months(MonthDays(y, m, 1, n + 1)) && MonthDays(y, m, 1, n + 1)[0] == Date(y, m, 1)
  {}

  lemma RowsOf(weeks: seq<seq<Date>>, days: seq<Date>, o: int)
    requires InRows(weeks, days, o)
    ensures |weeks| == RowsIn(o + |days|)
  {}

  lemma BothMonths(s: seq<Date>, t: seq<Date>)
    requires Months(s) && Months(t)
    ensures Months(s + t)
  {}

  lemma SixRows(weeks: seq<seq<Date>>, cells: seq<Date>)
    requires Filled(weeks, cells, 6, 7)
    ensures IsGrid(weeks, cells)
  {
    hide Concat;
  }

  /** The rows with the last days of the month before, up to the last day of this one. */
  ghost predicate StartFilled(y: int, m: int, f: int, weeks: seq<seq<Date>>, cells: seq<Date>)
    requires 1 <= m <= 12
  {
    && cells == Lead(y, m, f) + MonthDays(y, m, 1, DaysIn(y, m) + 1) && Months(cells) && |cells| >= 1
    && Filled(weeks, cells, RowCount(y, m, f), InLastRow(Offset(y, m, f) + DaysIn(y, m)))
  }

  method FillStart(y: int, m: int, firstDay: int) returns (weeks: seq<seq<Date>>, ghost cells: seq<Date>)
    requires 1 <= m <= 12 && 0 <= firstDay <= 6
    ensures StartFilled(y, m, firstDay, weeks, cells)
  {
    ghost var days, o := MonthDays(y, m, 1, DaysIn(y, m) + 1), Offset(y, m, firstDay);
    hide *;
    Counts(y, m, firstDay);
    weeks := MonthRows(y, m, firstDay);
    MonthStarts(y, m, DaysIn(y, m));
    RowsOf(weeks, days, o);
    weeks := FillFront(weeks, days, o);
    cells := Lead(y, m, firstDay) + days;
    Started(y, m, firstDay, weeks, days);
  }

  lemma Started(y: int, m: int, f: int, weeks: seq<seq<Date>>, days: seq<Date>)
    requires 1 <= m <= 12 && days == MonthDays(y, m, 1, DaysIn(y, m) + 1) && Months(days) && days[0] == Date(y, m, 1)
    requires var o := Offset(y, m, f);
             Filled(weeks, (if o == 0 then Off(days[0], -7, 7) else Back(days[0], o)) + days,
                    RowsIn(o + |days|) + (if o == 0 then 1 else 0), InLastRow(o + |days|))
    ensures StartFilled(y, m, f, weeks, Lead(y, m, f) + days)
  {
    Counts(y, m, f);
    LeadCells(y, m, f);
    BothMonths(Lead(y, m, f), days);
    hide MonthDays, DaysIn, Lead, Offset, Off, Back, RowCount, Missing, RowsIn, InLastRow, Filled, Months;
  }

  lemma LeadCells(y: int, m: int, f: int)
    requires 1 <= m <= 12
    ensures var o := Offset(y, m, f); Lead(y, m, f) == if o == 0 then Off(Date(y, m, 1), -7, 7) else Back(Date(y, m, 1), o)
  {
    hide Offset, Off, Back;
  }

  /** The rows of a month: six full weeks that hold the cells of the grid in their order. */
  method MonthWeeks(y: int, m: int, firstDay: int) returns (weeks: seq<seq<Date>>)
    requires 1 <= m <= 12 && 0 <= firstDay <= 6
    ensures IsGrid(weeks, Cells(y, m, firstDay))
  {
    hide *;
    ghost var cells;
    weeks, cells := FillStart(y, m, firstDay);
    LastOfMonth(y, m, firstDay, weeks, cells);
    weeks := FillEnd(weeks, cells, RowCount(y, m, firstDay), InLastRow(Offset(y, m, firstDay) + DaysIn(y, m)));
    SixRows(weeks, Cells(y, m, firstDay));
  }

  lemma LastOfMonth(y: int, m: int, f: int, weeks: seq<seq<Date>>, cells: seq<Date>)
    requires 1 <= m <= 12 && StartFilled(y, m, f, weeks, cells)
    ensures Months(cells) && |cells| >= 1
    ensures var left := InLastRow(Offset(y, m, f) + DaysIn(y, m));
            && Filled(weeks, cells, RowCount(y, m, f), left)
            && Cells(y, m, f) == cells + Completion(cells[|cells| - 1], 7 - left, RowCount(y, m, f))
  {
    hide MonthDays, DaysIn, Lead, Offset, RowCount, InLastRow, Filled, Months, Completion, Cells, MonthLength, Leap;
    AllCells(y, m, f, MonthDays(y, m, 1, DaysIn(y, m) + 1), cells);
  }

  // ---------------------------------------------------------------- when the grid is right

  /** Every cell is followed by the next day. */
  ghost predicate Consecutive(cells: seq<Date>) {
    && (forall k :: 0 <= k < |cells| ==> Valid(cells[k]))
    && forall k :: 0 <= k < |cells| - 1 ==> cells[k + 1] == Tomorrow(cells[k])
  }

  /** The year is read as it is meant, and so are the years of the neighbouring days that the
      constructor is asked to count from. */
  predicate Plain(y: int, m: int, o: int) {
    && !(0 <= y <= 99)
    && (y == 100 && m == 1 ==> o <= 1)
    && (y == -1 && m == 12 ==> o == 4)
  }

  lemma JsDateIs(c: Date, k: int)
    requires Valid(c) && !(0 <= c.year <= 99)
    ensures JsDate(c.year, c.month, c.day + k) == Shift(c, k)
  {
    InMonth(c.year, c.month, c.day);
    ShiftTwice(Date(c.year, c.month, 1), c.day - 1, k);
  }

  /** Up to four weeks before the first are in the month before. */
  lemma {:induction false} DayBefore(y: int, m: int, j: int)
    requires 1 <= m <= 12 && 1 <= j <= 28
    ensures Shift(Date(y, m, 1), -j) ==
            if m > 1 then Date(y, m - 1, MonthLength(y, m - 1) - j + 1) else Date(y - 1, 12, 32 - j)
    decreases j
  {
    if j > 1 { DayBefore(y, m, j - 1); }
  }

  lemma {:induction false} DayAfter(y: int, m: int, j: int)
    requires 1 <= m <= 12 && 1 <= j <= 28
    ensures Shift(Date(y, m, MonthLength(y, m)), j) == if m < 12 then Date(y, m + 1, j) else Date(y + 1, 1, j)
    decreases j
  {
    if j > 1 { DayAfter(y, m, j - 1); }
  }

  /** Days off one date are that date's own days. */
  lemma {:induction false} OffIs(c: Date, from: int, k: nat)
    requires Valid(c) && !(0 <= c.year <= 99)
    ensures forall i :: 0 <= i < k ==> Off(c, from, k)[i] == Shift(c, from + i)
  {
    if k > 0 {
      OffIs(c, from, k - 1);
      JsDateIs(c, from + k - 1);
    }
  }

  /** One day off a day near the first of a month, as the constructor finds it. */
  lemma BeforeOne(y: int, m: int, j: int)
    requires 1 <= m <= 12 && 0 <= j <= 27 && !(0 <= y <= 99) && (y == 100 && m == 1 ==> j == 0)
    ensures JsYesterday(Shift(Date(y, m, 1), -j)) == Shift(Date(y, m, 1), -j - 1)
  {
    var first := Date(y, m, 1);
    if j > 0 { DayBefore(y, m, j); }
    JsDateIs(Shift(first, -j), -1);
    ShiftTwice(first, -j, -1);
    hide Shift, JsDate;
  }

  lemma AfterOne(y: int, m: int, j: int)
    requires 1 <= m <= 12 && 0 <= j <= 27 && !(0 <= y <= 99) && (y == -1 && m == 12 ==> j == 0)
    ensures JsTomorrow(Shift(Date(y, m, MonthLength(y, m)), j)) == Shift(Date(y, m, MonthLength(y, m)), j + 1)
  {
    var last := Date(y, m, MonthLength(y, m));
    if j > 0 { DayAfter(y, m, j); }
    JsDateIs(Shift(last, j), 1);
    ShiftTwice(last, j, 1);
    hide Shift, JsDate;
  }

  lemma {:induction false} BackIs(y: int, m: int, k: nat)
    requires 1 <= m <= 12 && k <= 6 && !(0 <= y <= 99) && (y == 100 && m == 1 ==> k <= 1)
    ensures forall i :: 0 <= i < k ==> Back(Date(y, m, 1), k)[i] == Shift(Date(y, m, 1), i - k)
  {
    if k > 0 {
      BackIs(y, m, k - 1);
      BeforeOne(y, m, k - 1);
      assert Shift(Date(y, m, 1), 0) == Date(y, m, 1);
      hide Shift, JsYesterday;
    }
  }

  lemma {:induction false} AheadIs(y: int, m: int, k: nat)
    requires 1 <= m <= 12 && k <= 6 && !(0 <= y <= 99) && (y == -1 && m == 12 ==> k <= 1)
    ensures forall i :: 0 <= i < k ==> Ahead(Date(y, m, MonthLength(y, m)), k)[i] == Shift(Date(y, m, MonthLength(y, m)), i + 1)
  {
    var last := Date(y, m, MonthLength(y, m));
    if k > 0 {
      AheadIs(y, m, k - 1);
      AfterOne(y, m, k - 1);
      assert Shift(last, 0) == last;
      hide Shift, JsTomorrow;
    }
  }

  lemma LeadIs(y: int, m: int, f: int)
    requires 1 <= m <= 12 && Plain(y, m, Offset(y, m, f))
    ensures var lead := Lead(y, m, f); forall i :: 0 <= i < |lead| ==> lead[i] == Shift(Date(y, m, 1), i - |lead|)
  {
    hide Offset, Shift, Off, Back, Leap;
    var o := Offset(y, m, f);
    OffIs(Date(y, m, 1), -7, 7);
    if o != 0 { BackIs(y, m, o); }
  }

  /** The week added below starts where the last one ends. */
  lemma LastWeek(y: int, m: int, t: nat)
    requires 1 <= m <= 12 && t <= 6 && !(0 <= y <= 99) && (y == -1 && m == 12 ==> t == 0)
    ensures var last := Date(y, m, MonthLength(y, m));
            forall i :: 0 <= i < 7 ==> Off(Shift(last, t), 1, 7)[i] == Shift(last, t + i + 1)
  {
    var last := Date(y, m, MonthLength(y, m));
    if t > 0 { DayAfter(y, m, t); }
    OffIs(Shift(last, t), 1, 7);
    hide Shift, Off;
    forall i | 0 <= i < 7
      ensures Off(Shift(last, t), 1, 7)[i] == Shift(last, t + i + 1)
    {
      ShiftTwice(last, t, 1 + i);
    }
  }

  lemma FullLastWeek(y: int, m: int, f: int)
    requires 1 <= m <= 12 && Plain(y, m, Offset(y, m, f)) && y == -1 && m == 12
    ensures Missing(y, m, f) == 0
  {
    hide Offset;
    assert DaysIn(y, m) == 31;
  }

  lemma TailIs(y: int, m: int, f: int)
    requires 1 <= m <= 12 && Plain(y, m, Offset(y, m, f))
    ensures var last := Date(y, m, MonthLength(y, m)); var tail := Tail(y, m, f);
            forall i :: 0 <= i < |tail| ==> tail[i] == Shift(last, i + 1)
  {
    var last := Date(y, m, MonthLength(y, m));
    var t := Missing(y, m, f);
    if y == -1 && m == 12 { FullLastWeek(y, m, f); }
    AheadIs(y, m, t);
    LastWeek(y, m, t);
    assert Shift(last, 0) == last;
    assert DaysIn(y, m) == MonthLength(y, m);
    hide *;
    TailAt(y, m, f, last, t, Ahead(last, t), Off(Shift(last, t), 1, 7));
  }

  lemma TailAt(y: int, m: int, f: int, last: Date, t: nat, fill: seq<Date>, week: seq<Date>)
    requires 1 <= m <= 12 && Valid(last) && last == Date(y, m, DaysIn(y, m)) && t == Missing(y, m, f)
    requires fill == Ahead(last, t) && week == Off(Shift(last, t), 1, 7)
    requires forall i :: 0 <= i < t ==> fill[i] == Shift(last, i + 1)
    requires forall i :: 0 <= i < 7 ==> week[i] == Shift(last, t + i + 1)
    ensures var tail := Tail(y, m, f); forall i :: 0 <= i < |tail| ==> tail[i] == Shift(last, i + 1)
  {
    assert Shift(last, 0) == last;
    hide Shift, Missing, RowCount, DaysIn, Ahead, Off, Offset;
  }

  lemma CellAt(y: int, m: int, f: int, k: nat)
    requires 1 <= m <= 12 && k < 42
    ensures var lead, n := |Lead(y, m, f)|, DaysIn(y, m); var c := Cells(y, m, f)[k];
            && (k < lead ==> c == Lead(y, m, f)[k])
            && (lead <= k < lead + n ==> c == Date(y, m, 1 + k - lead))
            && (lead + n <= k ==> k - lead - n < |Tail(y, m, f)| && c == Tail(y, m, f)[k - lead - n])
  {
    hide Lead, Tail, DaysIn;
  }

  /** Days counted from the last of the month, counted from its first. */
  lemma FromLast(y: int, m: int, k: int)
    requires 1 <= m <= 12
    ensures Shift(Date(y, m, MonthLength(y, m)), k) == Shift(Date(y, m, 1), MonthLength(y, m) - 1 + k)
  {
    InMonth(y, m, MonthLength(y, m));
    ShiftTwice(Date(y, m, 1), MonthLength(y, m) - 1, k);
  }

  lemma DaysAsGiven(y: int, m: int)
    requires 1 <= m <= 12 && !(0 <= y <= 99)
    ensures DaysIn(y, m) == MonthLength(y, m) && JsDate(y, m, 1) == Date(y, m, 1)
  {}

  lemma CellIs(y: int, m: int, f: int, k: nat)
    requires 1 <= m <= 12 && Plain(y, m, Offset(y, m, f)) && k < 42
    ensures Cells(y, m, f)[k] == Shift(Date(y, m, 1), k - |Lead(y, m, f)|)
  {
    hide Cells, Lead, Offset, Shift, MonthLength, DaysIn, Tail;
    DaysAsGiven(y, m);
    CellAt(y, m, f, k);
    var n, i := MonthLength(y, m), k - |Lead(y, m, f)|;
    if i < 0 {
      LeadIs(y, m, f);
    } else if i < n {
      InMonth(y, m, 1 + i);
    } else {
      TailIs(y, m, f);
      FromLast(y, m, i - n + 1);
    }
  }

  ghost predicate RunsFrom(cells: seq<Date>, first: Date, lead: int)
    requires Valid(first)
  {
    forall k :: 0 <= k < |cells| ==> cells[k] == Shift(first, k - lead)
  }

  lemma RunsOn(cells: seq<Date>, first: Date, lead: int)
    requires Valid(first) && RunsFrom(cells, first, lead)
    ensures Consecutive(cells)
  {
    hide Tomorrow, Shift;
    forall k | 0 <= k < |cells| - 1
      ensures cells[k + 1] == Tomorrow(cells[k])
    {
      ShiftNext(first, k - lead);
    }
  }

  lemma LeadLength(y: int, m: int, f: int)
    requires 1 <= m <= 12
    ensures 1 <= |Lead(y, m, f)| <= 7 && |Lead(y, m, f)| + DaysIn(y, m) <= 42
  {
    hide Offset, DaysIn;
  }

  /** The columns left of the first of the month bring the row back to the first day. */
  lemma RowStart(y: int, m: int, f: int, r: int)
    requires 1 <= m <= 12 && 0 <= f <= 6 && !(0 <= y <= 99)
    ensures Weekday(Shift(Date(y, m, 1), 7 * r - |Lead(y, m, f)|)) == f
  {
    LeadModulo(y, m, f);
    hide *;
    DaysAsGiven(y, m);
    ShiftWeekday(Date(y, m, 1), 7 * r - |Lead(y, m, f)|);
    BackToFirst(Weekday(Date(y, m, 1)), f, |Lead(y, m, f)|, r);
  }

  lemma LeadModulo(y: int, m: int, f: int)
    requires 1 <= m <= 12
    ensures (Weekday(JsDate(y, m, 1)) - f) % 7 == |Lead(y, m, f)| % 7
  {
    hide Weekday, JsDate;
  }

  lemma BackToFirst(w: int, f: int, lead: int, r: int)
    requires (w - f) % 7 == lead % 7 && 0 <= f <= 6
    ensures (w + (7 * r - lead)) % 7 == f
  {}

  lemma Runs(y: int, m: int, f: int)
    requires 1 <= m <= 12 && Plain(y, m, Offset(y, m, f))
    ensures RunsFrom(Cells(y, m, f), Date(y, m, 1), |Lead(y, m, f)|)
  {
    hide Plain, Offset, Cells, Lead, Shift;
    forall k | 0 <= k < 42
      ensures Cells(y, m, f)[k] == Shift(Date(y, m, 1), k - |Lead(y, m, f)|)
    {
      CellIs(y, m, f, k);
    }
  }

  ghost predicate RowsStartOn(cells: seq<Date>, f: int) {
    && |cells| == 42
    && (forall k :: 0 <= k < 42 ==> Valid(cells[k]))
    && Weekday(cells[0]) == f && Weekday(cells[7]) == f && Weekday(cells[14]) == f
    && Weekday(cells[21]) == f && Weekday(cells[28]) == f && Weekday(cells[35]) == f
  }

  lemma RowStarts(y: int, m: int, f: int, r: int)
    requires 1 <= m <= 12 && 0 <= f <= 6 && Plain(y, m, Offset(y, m, f)) && 0 <= r < 6
    ensures var c := Cells(y, m, f)[7 * r]; Valid(c) && Weekday(c) == f
  {
    hide Cells, Offset, Lead, Shift, Weekday;
    CellIs(y, m, f, 7 * r);
    RowStart(y, m, f, r);
  }

  /** The cells of a plain month are consecutive days, of which the last one before its first column of the
      first week day, or seven days when it stands there itself, come before the first of the month. */
  lemma GridIs(y: int, m: int, f: int, k: nat)
    requires 1 <= m <= 12 && 0 <= f <= 6 && Plain(y, m, Offset(y, m, f)) && k < 42
    ensures var first := Date(y, m, 1);
            Cells(y, m, f)[k] == Shift(first, k - (1 + (Weekday(first) - f + 6) % 7))
  {
    hide *;
    PlainYear(y, m, Offset(y, m, f));
    CellIs(y, m, f, k);
    LeadLength(y, m, f);
    LeadModulo(y, m, f);
    DaysAsGiven(y, m);
    OneToSeven(|Lead(y, m, f)|, Weekday(Date(y, m, 1)) - f);
  }

  lemma PlainYear(y: int, m: int, o: int)
    requires Plain(y, m, o)
    ensures !(0 <= y <= 99)
  {}

  lemma OneToSeven(lead: int, w: int)
    requires 1 <= lead <= 7 && w % 7 == lead % 7
    ensures lead == 1 + (w + 6) % 7
  {}

  ghost predicate HoldsMonth(cells: seq<Date>, y: int, m: int) {
    forall d :: 1 <= d <= MonthLength(y, m) ==> Date(y, m, d) in cells
  }

  lemma MonthHeld(y: int, m: int, f: int)
    requires 1 <= m <= 12 && !(0 <= y <= 99)
    ensures HoldsMonth(Cells(y, m, f), y, m)
  {
    hide Cells, Lead, Offset, DaysIn, MonthLength;
    var cells, lead := Cells(y, m, f), |Lead(y, m, f)|;
    DaysAsGiven(y, m);
    LeadLength(y, m, f);
    forall d | 1 <= d <= MonthLength(y, m)
      ensures Date(y, m, d) in cells
    {
      CellAt(y, m, f, lead + d - 1);
      assert cells[lead + d - 1] in cells;
    }
  }

  /** The grid of a plain month: six weeks of consecutive days, each from the first day of the
      week, with all the days of the month in them. */
  lemma GridRight(y: int, m: int, f: int)
    requires 1 <= m <= 12 && 0 <= f <= 6 && Plain(y, m, Offset(y, m, f))
    ensures Consecutive(Cells(y, m, f)) && RowsStartOn(Cells(y, m, f), f) && HoldsMonth(Cells(y, m, f), y, m)
  {
    Runs(y, m, f);
    MonthHeld(y, m, f);
    var cells := Cells(y, m, f);
    hide Cells, Plain, Lead, Offset, Shift, HoldsMonth, Weekday;
    RunsOn(cells, Date(y, m, 1), |Lead(y, m, f)|);
    RowStarts(y, m, f, 0); RowStarts(y, m, f, 1); RowStarts(y, m, f, 2);
    RowStarts(y, m, f, 3); RowStarts(y, m, f, 4); RowStarts(y, m, f, 5);
  }

  // ---------------------------------------------------------------- when it is not

  /** A year of two digits is read as one of the twentieth century before the first of the
      month but is shown as it is from there on. */
  lemma TwoDigitYear(y: int, m: int, f: int)
    requires 1 <= m <= 12 && 0 <= y <= 99
    ensures !Consecutive(Cells(y, m, f))
  {
    var lead := |Lead(y, m, f)|;
    LeadLength(y, m, f);
    CellAt(y, m, f, lead - 1);
    CellAt(y, m, f, lead);
    assert Cells(y, m, f)[lead] == Date(y, m, 1);
    LeadEnd(y, m, f);
    hide Cells, Lead, Offset;
    assert Cells(y, m, f)[lead - 1 + 1] == Date(y, m, 1);
  }

  lemma LeadEnd(y: int, m: int, f: int)
    requires 1 <= m <= 12
    ensures var lead := Lead(y, m, f); lead != [] && lead[|lead| - 1] == JsDate(y, m, 0)
  {
    BackEnd(Date(y, m, 1), Offset(y, m, f));
    hide Offset, JsDate;
  }

  lemma {:induction false} BackEnd(c: Date, k: nat)
    requires 1 <= c.month <= 12
    ensures k > 0 ==> Back(c, k)[k - 1] == JsYesterday(c)
  {
    if k > 1 { BackEnd(c, k - 1); }
    hide JsYesterday;
  }

  lemma {:induction false} BackSecond(c: Date, k: nat)
    requires 1 <= c.month <= 12 && k >= 2
    ensures Back(c, k)[k - 1] == JsYesterday(c) && Back(c, k)[k - 2] == JsYesterday(JsYesterday(c))
  {
    BackEnd(c, k);
    if k > 2 { BackSecond(c, k - 1); }
    hide JsYesterday;
  }

  lemma {:induction false} AheadFirst(c: Date, k: nat)
    requires 1 <= c.month <= 12
    ensures k >= 1 ==> Ahead(c, k)[0] == JsTomorrow(c)
    ensures k >= 2 ==> Ahead(c, k)[1] == JsTomorrow(JsTomorrow(c))
  {
    if k > 1 { AheadFirst(c, k - 1); }
    hide JsTomorrow;
  }

  /** January of the year 100: the last of December 99 is found, and the day before it is
      looked for in 1999. */
  lemma JanuaryHundred(f: int)
    requires Offset(100, 1, f) >= 2
    ensures !Consecutive(Cells(100, 1, f))
  {
    var o := Offset(100, 1, f);
    BackSecond(Date(100, 1, 1), o);
    assert JsYesterday(Date(100, 1, 1)) == Date(99, 12, 31);
    JsDay(99, 12, 30);
    hide Offset, JsDate, Back, DaysIn, Tail;
    CellAt(100, 1, f, o - 2);
    CellAt(100, 1, f, o - 1);
    hide Cells, Lead;
    var cells := Cells(100, 1, f);
    assert cells[o - 2] == Date(1999, 12, 30);
    assert cells[o - 2 + 1] == Date(99, 12, 31);
  }

  lemma JsDay(y: int, m: int, d: int)
    requires 0 <= y <= 99 && 1 <= m <= 12 && 1 <= d <= MonthLength(1900 + y, m)
    ensures JsDate(y, m, d) == Date(1900 + y, m, d)
  {
    InMonth(1900 + y, m, d);
  }

  /** December of the year before year 0: the first of January 0 is found, and the day after it
      is looked for in 1900. */
  lemma DecemberBeforeZero(f: int)
    requires Offset(-1, 12, f) != 4
    ensures !Consecutive(Cells(-1, 12, f))
  {
    var lead, tail, cells := |Lead(-1, 12, f)|, Tail(-1, 12, f), Cells(-1, 12, f);
    TailBeforeZero(f);
    assert DaysIn(-1, 12) == 31;
    hide Offset, Tail, Lead, Cells, DaysIn;
    CellAt(-1, 12, f, lead + 31);
    CellAt(-1, 12, f, lead + 32);
    assert cells[lead + 31 + 1] == Date(1900, 1, 2);
  }

  lemma TailBeforeZero(f: int)
    requires Offset(-1, 12, f) != 4
    ensures var tail := Tail(-1, 12, f); |tail| >= 2 && tail[0] == Date(0, 1, 1) && tail[1] == Date(1900, 1, 2)
  {
    var last, t := Date(-1, 12, 31), Missing(-1, 12, f);
    assert DaysIn(-1, 12) == 31;
    DaysIntoZero();
    AheadFirst(last, t);
    OffFirst(Date(0, 1, 1), 7);
    hide Offset, JsDate, Ahead, Off, JsTomorrow;
  }

  lemma DaysIntoZero()
    ensures JsTomorrow(Date(-1, 12, 31)) == Date(0, 1, 1) && JsTomorrow(Date(0, 1, 1)) == Date(1900, 1, 2)
  {
    InMonth(-1, 12, 31);
    JsDay(0, 1, 2);
  }

  lemma {:induction false} OffFirst(c: Date, k: nat)
    requires 1 <= c.month <= 12 && k > 0
    ensures Off(c, 1, k)[0] == JsTomorrow(c)
  {
    if k > 1 { OffFirst(c, k - 1); }
    hide JsDate;
  }

  /** The grid shows consecutive days exactly for the plain months. */
  lemma GridRightExactly(y: int, m: int, f: int)
    requires 1 <= m <= 12 && 0 <= f <= 6
    ensures Consecutive(Cells(y, m, f)) <==> Plain(y, m, Offset(y, m, f))
  {
    hide Cells, Offset, Consecutive;
    if Plain(y, m, Offset(y, m, f)) {
      GridRight(y, m, f);
    } else if 0 <= y <= 99 {
      TwoDigitYear(y, m, f);
    } else if y == 100 {
      JanuaryHundred(f);
    } else {
      DecemberBeforeZero(f);
    }
  }
}
