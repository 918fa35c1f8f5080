/** The proleptic Gregorian calendar behind Python's `date`, `timedelta(days=1)` and
    `date.weekday()`: a successor on civil dates, and the day count it enumerates. */
module Calendar {

  datatype Date = Date(year: int, month: int, day: int)

  predicate Leap(y: int) {
    y % 4 == 0 && (y % 100 != 0 || y % 400 == 0)
  }

  function DaysInMonth(y: int, m: int): int {
    if m == 2 then (if Leap(y) then 29 else 28)
    else if m in {4, 6, 9, 11} then 30
    else 31
  }

  predicate Valid(d: Date) {
    1 <= d.month <= 12 && 1 <= d.day <= DaysInMonth(d.year, d.month)
  }

  /** `day + timedelta(days=1)` */
  function NextDay(d: Date): Date {
    if d.day < DaysInMonth(d.year, d.month) then d.(day := d.day + 1)
    else if d.month < 12 then Date(d.year, d.month + 1, 1)
    else Date(d.year + 1, 1, 1)
  }

  function DaysBeforeYear(y: int): int {
    var p := y - 1;
    p * 365 + p / 4 - p / 100 + p / 400
  }

  function DaysBeforeMonth(y: int, m: int): int
    requires 1 <= m <= 12
  {
    if m == 1 then 0 else DaysBeforeMonth(y, m - 1) + DaysInMonth(y, m - 1)
  }

  /** The day count; 1 January of year 1 is day 1, a Monday. */
  function Ordinal(d: Date): int
    requires Valid(d)
  {
    DaysBeforeYear(d.year) + DaysBeforeMonth(d.year, d.month) + d.day
  }

  /** `(date.weekday() + 1) % 7`: Sunday is 0. */
  function Weekday(n: int): (w: int)
    ensures 0 <= w < 7
  {
    n % 7
  }

  function YearLength(y: int): int {
    if Leap(y) then 366 else 365
  }

  lemma YearStep(y: int)
    ensures DaysBeforeYear(y + 1) == DaysBeforeYear(y) + YearLength(y)
  {
    DivStep(y, 4);
    DivStep(y, 100);
    DivStep(y, 400);
    HundredsAreFours(y);
    FourHundredsAreHundreds(y);
  }

  lemma HundredsAreFours(y: int)
    ensures y % 100 == 0 ==> y % 4 == 0
  {
  }

  lemma FourHundredsAreHundreds(y: int)
    ensures y % 400 == 0 ==> y % 100 == 0
  {
  }

  lemma DivStep(y: int, k: int)
    requires k in {4, 100, 400}
    ensures y / k == (y - 1) / k + (if y % k == 0 then 1 else 0)
  {
  }

  lemma MonthTable(y: int)
    ensures DaysBeforeMonth(y, 1) == 0 && DaysBeforeMonth(y, 2) == 31
    ensures var l := if Leap(y) then 1 else 0;
            && DaysBeforeMonth(y, 3) == 59 + l && DaysBeforeMonth(y, 4) == 90 + l
            && DaysBeforeMonth(y, 5) == 120 + l && DaysBeforeMonth(y, 6) == 151 + l
            && DaysBeforeMonth(y, 7) == 181 + l && DaysBeforeMonth(y, 8) == 212 + l
            && DaysBeforeMonth(y, 9) == 243 + l && DaysBeforeMonth(y, 10) == 273 + l
            && DaysBeforeMonth(y, 11) == 304 + l && DaysBeforeMonth(y, 12) == 334 + l
  {
    assert DaysBeforeMonth(y, 4) == DaysBeforeMonth(y, 3) + 31;
    assert DaysBeforeMonth(y, 6) == DaysBeforeMonth(y, 5) + 31;
    assert DaysBeforeMonth(y, 8) == DaysBeforeMonth(y, 7) + 31;
    assert DaysBeforeMonth(y, 10) == DaysBeforeMonth(y, 9) + 30;
  }

  /** The civil successor and the day count agree, across month ends, leap days and centuries. */
  lemma NextDayCounts(d: Date)
    requires Valid(d)
    ensures Valid(NextDay(d)) && Ordinal(NextDay(d)) == Ordinal(d) + 1
  {
    MonthTable(d.year);
    MonthTable(d.year + 1);
    YearStep(d.year);
  }

  function PreviousDay(d: Date): Date {
    if d.day > 1 then d.(day := d.day - 1)
    else if d.month > 1 then Date(d.year, d.month - 1, DaysInMonth(d.year, d.month - 1))
    else Date(d.year - 1, 12, 31)
  }

  /** The civil date of day n: the days counted off from 1 January of year 1. */
  function FromOrdinal(n: int): Date
    decreases if n < 1 then 1 - n else n - 1
  {
    if n == 1 then Date(1, 1, 1)
    else if n > 1 then NextDay(FromOrdinal(n - 1))
    else PreviousDay(FromOrdinal(n + 1))
  }

  lemma PreviousDayUndone(d: Date)
    requires Valid(d)
    ensures Valid(PreviousDay(d)) && NextDay(PreviousDay(d)) == d
  {
  }

  lemma {:induction false} FromOrdinalCorrect(n: int)
    ensures Valid(FromOrdinal(n)) && Ordinal(FromOrdinal(n)) == n
    decreases if n < 1 then 1 - n else n - 1
  {
    if n > 1 {
      FromOrdinalCorrect(n - 1);
      NextDayCounts(FromOrdinal(n - 1));
    } else if n < 1 {
      FromOrdinalCorrect(n + 1);
      PreviousDayUndone(FromOrdinal(n + 1));
      NextDayCounts(FromOrdinal(n));
    }
  }

  lemma YearsGrow(y: int, z: int)
    requires y < z
    ensures DaysBeforeYear(y) + YearLength(y) <= DaysBeforeYear(z)
    decreases z - y
  {
    YearStep(y);
    if y + 1 < z {
      YearsGrow(y + 1, z);
    }
  }

  lemma OrdinalOrders(a: Date, b: Date)
    requires Valid(a) && Valid(b) && a.year == b.year
    ensures Ordinal(a) < Ordinal(b)
      <==> a.month < b.month || (a.month == b.month && a.day < b.day)
  {
    MonthTable(a.year);
  }

  lemma OrdinalInYear(d: Date)
    requires Valid(d)
    ensures DaysBeforeYear(d.year) < Ordinal(d) <= DaysBeforeYear(d.year) + YearLength(d.year)
  {
    MonthTable(d.year);
  }

  /** Counting days off and numbering dates are inverse. */
  lemma OrdinalRoundTrip(d: Date)
    requires Valid(d)
    ensures FromOrdinal(Ordinal(d)) == d
  {
    var e := FromOrdinal(Ordinal(d));
    FromOrdinalCorrect(Ordinal(d));
    OrdinalInYear(d);
    OrdinalInYear(e);
    if d.year < e.year {
      YearsGrow(d.year, e.year);
      assert false;
    } else if e.year < d.year {
      YearsGrow(e.year, d.year);
      assert false;
    }
    OrdinalOrders(d, e);
    OrdinalOrders(e, d);
  }

  lemma FromOrdinalSteps(n: int)
    ensures NextDay(FromOrdinal(n)) == FromOrdinal(n + 1)
  {
    if n < 1 {
      FromOrdinalCorrect(n + 1);
      PreviousDayUndone(FromOrdinal(n + 1));
    }
  }

  predicate EveryYear(m: int, d: int) {
    1 <= m <= 12 && 1 <= d <= DaysInMonth(1, m)
  }

  predicate SomeYear(m: int, d: int) {
    EveryYear(m, d) || (m == 2 && d == 29)
  }

  lemma ValidMonthDay(y: int, m: int, d: int)
    ensures EveryYear(m, d) ==> Valid(Date(y, m, d))
    ensures Valid(Date(y, m, d)) ==> SomeYear(m, d)
  {
  }

  /** Any 366 consecutive days hold every month and day of the month but 29 February. */
  lemma YearCoversMonthDay(n: int, m: int, d: int) returns (k: int)
    requires EveryYear(m, d)
    ensures n <= k < n + 366
    ensures FromOrdinal(k).month == m && FromOrdinal(k).day == d
  {
    hide FromOrdinal;
    FromOrdinalCorrect(n);
    var y := FromOrdinal(n).year;
    var here, next := Date(y, m, d), Date(y + 1, m, d);
    OrdinalInYear(FromOrdinal(n));
    OrdinalInYear(here);
    YearStep(y);
    MonthTable(y);
    MonthTable(y + 1);
    k := if Ordinal(here) >= n then Ordinal(here) else Ordinal(next);
    OrdinalRoundTrip(here);
    OrdinalRoundTrip(next);
  }

  /** Days d and d + i of one month, for as long as the month lasts. */
  lemma WithinMonth(n: int, i: nat)
    requires FromOrdinal(n).day + i <= DaysInMonth(FromOrdinal(n).year, FromOrdinal(n).month)
    ensures FromOrdinal(n + i) == FromOrdinal(n).(day := FromOrdinal(n).day + i)
  {
    FromOrdinalCorrect(n);
    OrdinalRoundTrip(FromOrdinal(n).(day := FromOrdinal(n).day + i));
  }

  /** The month lengths of common years do not depend on the year. */
  lemma CommonMonths(y: int, m: int)
    requires !Leap(y) && 1 <= m <= 12
    ensures DaysBeforeMonth(y, m) == DaysBeforeMonth(1, m)
    ensures DaysInMonth(y, m) == DaysInMonth(1, m)
  {
    MonthTable(y);
    MonthTable(1);
  }

  /** In common years a date falls on every weekday: seven years whose first days differ. */
  lemma CommonDateMeetsWeekday(m: int, d: int, w: int) returns (n: int)
    requires EveryYear(m, d) && 0 <= w < 7
    ensures FromOrdinal(n).month == m && FromOrdinal(n).day == d && Weekday(n) == w
  {
    hide FromOrdinal;
    var offset := DaysBeforeMonth(1, m) + d;
    var shift := (w - offset) % 7;
    var (y, before) := [(1, 0), (2, 365), (3, 730), (9, 2922), (10, 3287), (5, 1461), (6, 1826)][shift];
    assert DaysBeforeYear(y) == before && before % 7 == shift;
    CommonMonths(y, m);
    n := before + offset;
    assert Ordinal(Date(y, m, d)) == n;
    OrdinalRoundTrip(Date(y, m, d));
    ResidueSum(before, offset, w);
  }

  /** So does 29 February, in seven leap years. */
  lemma LeapDateMeetsWeekday(w: int) returns (n: int)
    requires 0 <= w < 7
    ensures FromOrdinal(n).month == 2 && FromOrdinal(n).day == 29 && Weekday(n) == w
  {
    hide FromOrdinal;
    var shift := (w - 60) % 7;
    var (y, before) := [(24, 8400), (8, 2556), (20, 6939), (4, 1095), (16, 5478), (28, 9861), (12, 4017)][shift];
    assert DaysBeforeYear(y) == before && before % 7 == shift;
    MonthTable(y);
    n := before + 60;
    assert Ordinal(Date(y, 2, 29)) == n;
    OrdinalRoundTrip(Date(y, 2, 29));
    ResidueSum(before, 60, w);
  }

  lemma ResidueSum(before: int, offset: int, w: int)
    requires 0 <= w < 7 && before % 7 == (w - offset) % 7
    ensures (before + offset) % 7 == w
  {
  }

  /** Every weekday falls on every month and day that any year has. */
  lemma WeekdayMeetsDate(m: int, d: int, w: int) returns (n: int)
    requires SomeYear(m, d) && 0 <= w < 7
    ensures FromOrdinal(n).month == m && FromOrdinal(n).day == d && Weekday(n) == w
  {
    if EveryYear(m, d) {
      n := CommonDateMeetsWeekday(m, d, w);
    } else {
      n := LeapDateMeetsWeekday(w);
    }
  }

  /** The anchor of the weekday count: 12 July 2026 is a Sunday. */
  lemma KnownSunday()
    ensures Weekday(Ordinal(Date(2026, 7, 12))) == 0
  {
    MonthTable(2026);
    assert DaysBeforeYear(2026) == 739616;
  }

  /** The civil year by its numbers: where each month begins, and how long the year is. */
  lemma YearLayout(y: int)
    ensures var first := Ordinal(Date(y, 1, 1));
            var leap := if y % 4 == 0 && (y % 100 != 0 || y % 400 == 0) then 1 else 0;
            && Ordinal(Date(y, 2, 1)) == first + 31 && Ordinal(Date(y, 3, 1)) == first + 59 + leap
            && Ordinal(Date(y, 4, 1)) == first + 90 + leap && Ordinal(Date(y, 5, 1)) == first + 120 + leap
            && Ordinal(Date(y, 6, 1)) == first + 151 + leap && Ordinal(Date(y, 7, 1)) == first + 181 + leap
            && Ordinal(Date(y, 8, 1)) == first + 212 + leap && Ordinal(Date(y, 9, 1)) == first + 243 + leap
            && Ordinal(Date(y, 10, 1)) == first + 273 + leap && Ordinal(Date(y, 11, 1)) == first + 304 + leap
            && Ordinal(Date(y, 12, 1)) == first + 334 + leap
            && Ordinal(Date(y + 1, 1, 1)) == first + 365 + leap
  {
    YearStep(y);
    MonthTable(y);
    hide DaysBeforeYear, DaysBeforeMonth, DaysInMonth;
    assert DaysBeforeMonth(y + 1, 1) == 0 by {
      MonthTable(y + 1);
    }
  }
}
