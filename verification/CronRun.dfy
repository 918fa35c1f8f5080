/** `cron_next_run`: the day/hour/minute search against a minute-by-minute scan.

    Time is local and naive: minute t lies on day t / 1440 of the calendar, at t % 1440. */
module CronRun {
  import opened Prelude
  import opened Calendar
  import opened CronFields
  import opened Text

  const DAY := 1440
  const HORIZON_DAYS := 732

  datatype Schedule = Schedule(
    minutes: set<int>, hours: set<int>, doms: set<int>, months: set<int>, dows: set<int>,
    domStar: bool, dowStar: bool)

  const KEYWORD_SPECS: map<string, string> := map[
    "@hourly" := "0 * * * *",
    "@daily" := "0 0 * * *",
    "@midnight" := "0 0 * * *",
    "@weekly" := "0 0 * * 0",
    "@monthly" := "0 0 1 * *",
    "@yearly" := "0 0 1 1 *",
    "@annually" := "0 0 1 1 *"]

  /** What the five fields of a schedule text denote, `None` where `cron_next_run` gives up. */
  function ParseSchedule(schedule: string): (r: Option<Schedule>)
    ensures r.Some? ==> Proper(r.value)
  {
    var text := if schedule in KEYWORD_SPECS then KEYWORD_SPECS[schedule] else schedule;
    var f := Words(text);
    if |f| != 5 then None
    else
      match (FieldValues(f[0], 0, 59, map[]), FieldValues(f[1], 0, 23, map[]),
             FieldValues(f[2], 1, 31, map[]), FieldValues(f[3], 1, 12, MONTH_NAMES),
             FieldValues(f[4], 0, 7, DOW_NAMES))
      case (Some(minutes), Some(hours), Some(doms), Some(months), Some(dows)) =>
        NonEmpty(minutes); NonEmpty(hours); NonEmpty(doms); NonEmpty(months); NonEmpty(dows);
        FoldedDows(dows);
        Some(Schedule(minutes, hours, doms, months, Fold7(dows), "*" <= f[2], "*" <= f[4]))
      case _ => None
  }

  function Fold7(dows: set<int>): set<int> {
    set d | d in dows :: d % 7
  }

  lemma FoldedDows(dows: set<int>)
    requires exists d :: d in dows
    ensures Within(Fold7(dows), 0, 6)
  {
    var d :| d in dows;
    assert d % 7 in Fold7(dows);
  }

  lemma NonEmpty(s: set<int>)
    ensures s != {} ==> exists v :: v in s
  {
    if forall v :: v !in s {
      assert s == {};
    }
  }

  predicate Within(s: set<int>, lo: int, hi: int) {
    (exists v :: v in s) && forall v :: v in s ==> lo <= v <= hi
  }

  /** What every parsed schedule satisfies. */
  predicate Proper(s: Schedule) {
    && Within(s.minutes, 0, 59) && Within(s.hours, 0, 23) && Within(s.doms, 1, 31)
    && Within(s.months, 1, 12) && Within(s.dows, 0, 6)
  }

  // ---- Minutes ----

  function DayOf(t: int): int {
    t / DAY
  }

  function HourOf(t: int): int {
    t % DAY / 60
  }

  function MinuteOf(t: int): int {
    t % DAY % 60
  }

  function At(n: int, h: int, m: int): int {
    n * DAY + h * 60 + m
  }

  lemma AtParts(n: int, h: int, m: int)
    requires 0 <= h <= 23 && 0 <= m <= 59
    ensures DayOf(At(n, h, m)) == n && HourOf(At(n, h, m)) == h && MinuteOf(At(n, h, m)) == m
  {
  }

  lemma AtOrder(u: int, t: int)
    ensures u < t <==> || DayOf(u) < DayOf(t)
                       || (DayOf(u) == DayOf(t) && HourOf(u) < HourOf(t))
                       || (DayOf(u) == DayOf(t) && HourOf(u) == HourOf(t) && MinuteOf(u) < MinuteOf(t))
  {
    assert u == DayOf(u) * DAY + HourOf(u) * 60 + MinuteOf(u);
    assert t == DayOf(t) * DAY + HourOf(t) * 60 + MinuteOf(t);
  }

  // ---- The slow form ----

  /** The code's four-way day rule on day n. */
  predicate DayRule(s: Schedule, n: int) {
    var domOk := FromOrdinal(n).day in s.doms;
    var dowOk := Weekday(n) in s.dows;
    || (s.domStar && s.dowStar)
    || (s.domStar && dowOk)
    || (s.dowStar && domOk)
    || (!s.domStar && !s.dowStar && (domOk || dowOk))
  }

  predicate DayMatches(s: Schedule, n: int) {
    FromOrdinal(n).month in s.months && DayRule(s, n)
  }

  predicate TimeMatches(s: Schedule, t: int) {
    HourOf(t) in s.hours && MinuteOf(t) in s.minutes
  }

  predicate Matches(s: Schedule, t: int) {
    DayMatches(s, DayOf(t)) && TimeMatches(s, t)
  }

  /** Looks at every minute of [t, end) in turn. */
  function Scan(s: Schedule, t: int, end: int): (r: Option<int>)
    ensures r.Some? ==> t <= r.value < end && Matches(s, r.value)
                        && forall u :: t <= u < r.value ==> !Matches(s, u)
    ensures r.None? ==> forall u :: t <= u < end ==> !Matches(s, u)
    decreases end - t
  {
    if t >= end then None
    else if Matches(s, t) then Some(t)
    else Scan(s, t + 1, end)
  }

  /** The first whole minute after `now` (in seconds). */
  function StartMinute(now: real): (t: int)
    ensures t as real * 60.0 > now >= (t - 1) as real * 60.0
  {
    ((now + 60.0) / 60.0).Floor
  }

  function EndMinute(start: int): int {
    (DayOf(start) + HORIZON_DAYS) * DAY
  }

  /** The specification of `cron_next_run`, in minutes. */
  function NextRun(schedule: string, now: real): Option<int> {
    match ParseSchedule(schedule)
    case None => None
    case Some(s) => Scan(s, StartMinute(now), EndMinute(StartMinute(now)))
  }

  lemma ScanIs(s: Schedule, t: int, end: int, r: Option<int>)
    requires r.Some? ==> t <= r.value < end && Matches(s, r.value)
                         && forall u :: t <= u < r.value ==> !Matches(s, u)
    requires r.None? ==> forall u :: t <= u < end ==> !Matches(s, u)
    ensures r == Scan(s, t, end)
  {
  }

  // ---- The fast form ----

  /** `sorted(s)` */
  function Sorted(s: set<int>, lo: int, hi: int): (r: seq<int>)
    ensures forall i :: 0 <= i < |r| ==> r[i] in s && lo <= r[i] <= hi
    ensures forall i, j :: 0 <= i < j < |r| ==> r[i] < r[j]
    ensures forall v :: v in s && lo <= v <= hi ==> v in r
    decreases hi - lo
  {
    if lo > hi then [] else (if lo in s then [lo] else []) + Sorted(s, lo + 1, hi)
  }

  /** Minute u of day n, not before `start`, in hour h. */
  predicate InHour(u: int, n: int, h: int, start: int) {
    start <= u && DayOf(u) == n && HourOf(u) == h
  }

  /** The minute loop at hour h of day n. */
  method SearchHour(s: Schedule, n: int, h: int, start: int) returns (r: Option<int>)
    requires Proper(s) && h in s.hours
    ensures r.Some? ==> InHour(r.value, n, h, start) && TimeMatches(s, r.value)
                        && forall u :: u < r.value && InHour(u, n, h, start) ==> !TimeMatches(s, u)
    ensures r.None? ==> forall u :: InHour(u, n, h, start) ==> !TimeMatches(s, u)
  {
    hide DayOf, HourOf, MinuteOf, At, Sorted;
    var minutes := Sorted(s.minutes, 0, 59);
    for j := 0 to |minutes|
      invariant forall u :: InHour(u, n, h, start) && MinuteOf(u) in minutes[..j] ==> false
    {
      var candidate := At(n, h, minutes[j]);
      AtParts(n, h, minutes[j]);
      if candidate >= start {
        forall u | u < candidate && InHour(u, n, h, start) ensures !TimeMatches(s, u) {
          AtOrder(u, candidate);
        }
        return Some(candidate);
      }
      forall u | InHour(u, n, h, start) ensures MinuteOf(u) != minutes[j] {
        AtOrder(u, candidate);
        AtOrder(candidate, u);
      }
    }
    assert minutes[..|minutes|] == minutes;
    return None;
  }

  /** The hour loop on one matching day n. */
  method SearchDay(s: Schedule, n: int, start: int) returns (r: Option<int>)
    requires Proper(s)
    ensures r.Some? ==> start <= r.value && DayOf(r.value) == n && TimeMatches(s, r.value)
                        && forall u :: start <= u < r.value && DayOf(u) == n ==> !TimeMatches(s, u)
    ensures r.None? ==> forall u :: start <= u && DayOf(u) == n ==> !TimeMatches(s, u)
  {
    hide DayOf, HourOf, MinuteOf, At, Sorted;
    var hours := Sorted(s.hours, 0, 23);
    for i := 0 to |hours|
      invariant forall u :: (start <= u && DayOf(u) == n && HourOf(u) in hours[..i])
                            ==> !TimeMatches(s, u)
    {
      r := SearchHour(s, n, hours[i], start);
      if r.Some? {
        forall u | start <= u < r.value && DayOf(u) == n ensures !TimeMatches(s, u) {
          AtOrder(u, r.value);
        }
        return;
      }
    }
    assert hours[..|hours|] == hours;
    return None;
  }

  /** The day loop. */
  method Search(s: Schedule, start: int) returns (r: Option<int>)
    requires Proper(s)
    ensures r == Scan(s, start, EndMinute(start))
  {
    hide DayOf, HourOf, MinuteOf, Weekday, FromOrdinal;
    ghost var first := DayOf(start);
    var day := FromOrdinal(DayOf(start));
    forall u | start <= u ensures DayOf(u) >= first {
      AtOrder(u, start);
    }
    for k := 0 to HORIZON_DAYS
      invariant day == FromOrdinal(first + k)
      invariant forall u :: start <= u && DayOf(u) < first + k ==> !Matches(s, u)
    {
      FromOrdinalCorrect(first + k);
      FromOrdinalSteps(first + k);
      if day.month in s.months {
        var domOk := day.day in s.doms;
        var dowOk := Weekday(Ordinal(day)) in s.dows;
        if || (s.domStar && s.dowStar)
           || (s.domStar && dowOk)
           || (s.dowStar && domOk)
           || (!s.domStar && !s.dowStar && (domOk || dowOk))
        {
          r := SearchDay(s, Ordinal(day), start);
          if r.Some? {
            FirstMatch(s, start, r.value, first + k);
            return;
          }
        }
      }
      day := NextDay(day);
    }
    forall u | start <= u < EndMinute(start) ensures !Matches(s, u) {
      DayBelow(u, first + HORIZON_DAYS);
    }
    ScanIs(s, start, EndMinute(start), None);
    return None;
  }

  lemma DayBelow(u: int, n: int)
    ensures u < n * DAY <==> DayOf(u) < n
  {
  }

  lemma FirstMatch(s: Schedule, start: int, t: int, n: int)
    requires start <= t && DayOf(t) == n && Matches(s, t) && n < DayOf(start) + HORIZON_DAYS
    requires forall u :: start <= u && DayOf(u) < n ==> !Matches(s, u)
    requires forall u :: start <= u < t && DayOf(u) == n ==> !TimeMatches(s, u)
    ensures Scan(s, start, EndMinute(start)) == Some(t)
  {
    hide DayOf, HourOf, MinuteOf, DayMatches;
    forall u | start <= u < t ensures !Matches(s, u) {
      AtOrder(t, u);
    }
    DayBelow(t, DayOf(start) + HORIZON_DAYS);
    ScanIs(s, start, EndMinute(start), Some(t));
  }

  /** `cron_next_run` */
  method CronNextRun(schedule: string, now: real) returns (r: Option<int>)
    ensures r == NextRun(schedule, now)
  {
    hide FieldValues, Words;
    var text := if schedule in KEYWORD_SPECS then KEYWORD_SPECS[schedule] else schedule;
    var fields := Words(text);
    if |fields| != 5 {
      return None;
    }
    var minutes := ParseField(fields[0], 0, 59, map[]);
    var hours := ParseField(fields[1], 0, 23, map[]);
    var doms := ParseField(fields[2], 1, 31, map[]);
    var months := ParseField(fields[3], 1, 12, MONTH_NAMES);
    var dows := ParseField(fields[4], 0, 7, DOW_NAMES);
    if minutes.None? || hours.None? || doms.None? || months.None? || dows.None? {
      return None;
    }
    var s := Schedule(minutes.value, hours.value, doms.value, months.value, Fold7(dows.value),
                      "*" <= fields[2], "*" <= fields[4]);
    assert ParseSchedule(schedule) == Some(s);
    r := Search(s, StartMinute(now));
  }

  // ---- What the result means ----

  /** A returned time runs the schedule, comes after `now`, and no earlier minute after `now` does. */
  lemma NextRunIsFirst(schedule: string, now: real)
    ensures match NextRun(schedule, now)
            case None => true
            case Some(t) =>
              && ParseSchedule(schedule).Some?
              && Matches(ParseSchedule(schedule).value, t)
              && t as real * 60.0 > now
              && forall u: int :: now < u as real * 60.0 && u < t
                   ==> !Matches(ParseSchedule(schedule).value, u)
  {
    hide ParseSchedule, Matches;
    if NextRun(schedule, now).Some? {
      forall u: int | now < u as real * 60.0 && u < NextRun(schedule, now).value
        ensures !Matches(ParseSchedule(schedule).value, u)
      {
        assert u >= StartMinute(now);
      }
    }
  }

  // ---- When the search finds nothing ----

  /** Day n still has an allowed minute at or after `start`. */
  predicate Room(s: Schedule, n: int, start: int) {
    exists h, m :: h in s.hours && m in s.minutes && At(n, h, m) >= start
  }

  lemma LaterDaysHaveRoom(s: Schedule, n: int, start: int)
    requires Proper(s) && DayOf(start) < n
    ensures Room(s, n, start)
  {
    hide DayOf, HourOf, MinuteOf, At;
    var h :| h in s.hours;
    var m :| m in s.minutes;
    AtParts(n, h, m);
    AtOrder(start, At(n, h, m));
  }

  /** The search succeeds exactly when a matching day of the window has room. */
  lemma FoundOnDay(s: Schedule, start: int)
    requires Proper(s)
    ensures Scan(s, start, EndMinute(start)).Some?
       <==> exists n :: DayOf(start) <= n < DayOf(start) + HORIZON_DAYS
                        && DayMatches(s, n) && Room(s, n, start)
  {
    hide DayOf, HourOf, MinuteOf, At, DayMatches;
    var end := EndMinute(start);
    var r := Scan(s, start, end);
    if r.Some? {
      var n := DayOf(r.value);
      AtOrder(r.value, start);
      DayBelow(r.value, DayOf(start) + HORIZON_DAYS);
      AtItself(r.value);
      assert Room(s, n, start);
    }
    if n :| DayOf(start) <= n < DayOf(start) + HORIZON_DAYS && DayMatches(s, n) && Room(s, n, start) {
      var h, m :| h in s.hours && m in s.minutes && At(n, h, m) >= start;
      AtParts(n, h, m);
      DayBelow(At(n, h, m), DayOf(start) + HORIZON_DAYS);
      assert Matches(s, At(n, h, m));
    }
  }

  lemma AtItself(t: int)
    ensures At(DayOf(t), HourOf(t), MinuteOf(t)) == t
  {
  }

  predicate IsLeapDay(n: int) {
    FromOrdinal(n).month == 2 && FromOrdinal(n).day == 29
  }

  /** Some listed day of a listed month comes round every year. */
  predicate HasYearlyDate(s: Schedule) {
    exists m, d :: m in s.months && d in s.doms && EveryYear(m, d)
  }

  predicate HasLeapDay(s: Schedule) {
    2 in s.months && 29 in s.doms
  }

  predicate LeapDayInWindow(s: Schedule, start: int) {
    exists n :: DayOf(start) <= n < DayOf(start) + HORIZON_DAYS && IsLeapDay(n) && Room(s, n, start)
  }

  /** A schedule that runs on some weekday, or on every day of a month, runs within 373 days. */
  lemma WeekdaysComeRound(s: Schedule, first: int) returns (n: int)
    requires Proper(s) && (s.domStar || !s.dowStar)
    ensures first <= n < first + 373 && DayMatches(s, n)
  {
    hide FromOrdinal;
    var m :| m in s.months;
    var w :| w in s.dows;
    var k := YearCoversMonthDay(first, m, 1);
    n := k + (w - k) % 7;
    FromOrdinalCorrect(k);
    WithinMonth(k, n - k);
    WeekdayShift(k, w);
  }

  lemma WeekdayShift(k: int, w: int)
    requires 0 <= w <= 6
    ensures Weekday(k + (w - k) % 7) == w
  {
  }

  lemma DomOnlyDays(s: Schedule, n: int)
    requires Proper(s) && s.dowStar && !s.domStar
    ensures DayMatches(s, n) <==> FromOrdinal(n).month in s.months && FromOrdinal(n).day in s.doms
    ensures DayMatches(s, n) ==> HasYearlyDate(s) || (HasLeapDay(s) && IsLeapDay(n))
  {
    hide FromOrdinal;
    FromOrdinalCorrect(n);
    ValidMonthDay(FromOrdinal(n).year, FromOrdinal(n).month, FromOrdinal(n).day);
  }

  /** Exactly when `cron_next_run` gives up on a schedule that parses: day of month restricted,
      day of week starred, every date it lists impossible but for 29 February, and no usable
      29 February inside the 732-day window. */
  lemma NoneExactly(s: Schedule, start: int)
    requires Proper(s)
    ensures Scan(s, start, EndMinute(start)).None?
       <==> s.dowStar && !s.domStar && !HasYearlyDate(s)
            && !(HasLeapDay(s) && LeapDayInWindow(s, start))
  {
    hide FromOrdinal, DayOf, Room, DayMatches;
    FoundOnDay(s, start);
    var first := DayOf(start) + 1;
    if s.domStar || !s.dowStar {
      var n := WeekdaysComeRound(s, first);
      LaterDaysHaveRoom(s, n, start);
    } else if m, d :| m in s.months && d in s.doms && EveryYear(m, d) {
      var n := YearCoversMonthDay(first, m, d);
      LaterDaysHaveRoom(s, n, start);
      DomOnlyDays(s, n);
    } else {
      forall n ensures DayMatches(s, n) <==> HasLeapDay(s) && IsLeapDay(n) {
        DomOnlyDays(s, n);
      }
    }
  }

  /** The same for `cron_next_run` itself, from schedule text and clock. */
  lemma NextRunNoneExactly(schedule: string, now: real)
    ensures NextRun(schedule, now).None?
       <==> match ParseSchedule(schedule)
            case None => true
            case Some(s) => s.dowStar && !s.domStar && !HasYearlyDate(s)
                            && !(HasLeapDay(s) && LeapDayInWindow(s, StartMinute(now)))
  {
    hide ParseSchedule, HasYearlyDate, HasLeapDay, LeapDayInWindow, StartMinute;
    if ParseSchedule(schedule).Some? {
      NoneExactly(ParseSchedule(schedule).value, StartMinute(now));
    }
  }

  lemma LeapYearAfter(y0: int) returns (y: int)
    ensures y > y0 && Leap(y)
  {
    y := 400 * (1 + if y0 < 0 then 0 else y0);
    assert y % 400 == 0;
    FourHundredsAreHundreds(y);
    HundredsAreFours(y);
  }

  /** Leap days never run out. */
  lemma LeapDayAhead(n: int) returns (k: int)
    ensures k > n && IsLeapDay(k)
  {
    hide FromOrdinal, DaysBeforeYear, DaysBeforeMonth, Leap;
    FromOrdinalCorrect(n);
    var d := FromOrdinal(n);
    var y := LeapYearAfter(d.year);
    var leapDay := Date(y, 2, 29);
    assert Valid(leapDay);
    YearsGrow(d.year, y);
    OrdinalInYear(d);
    OrdinalInYear(leapDay);
    OrdinalRoundTrip(leapDay);
    k := Ordinal(leapDay);
  }

  /** A None for a schedule that parses misses a real run exactly when it lists 29 February:
      the run exists, beyond the horizon. */
  lemma NoneMissesLeapRuns(s: Schedule, start: int)
    requires Proper(s)
    ensures Scan(s, start, EndMinute(start)).None? ==>
              ((exists t :: start <= t && Matches(s, t)) <==> HasLeapDay(s))
  {
    hide FromOrdinal, DayOf, HourOf, MinuteOf, At, DayMatches;
    NoneExactly(s, start);
    if s.domStar || !s.dowStar {
      return;
    }
    if t :| start <= t && Matches(s, t) {
      DomOnlyDays(s, DayOf(t));
    }
    if HasLeapDay(s) {
      var n := LeapDayAhead(DayOf(start));
      DomOnlyDays(s, n);
      LaterDaysHaveRoom(s, n, start);
      var h, m :| h in s.hours && m in s.minutes && At(n, h, m) >= start;
      AtParts(n, h, m);
      assert Matches(s, At(n, h, m));
    }
  }

  // ---- The day rule against the Vixie rule ----

  /** Vixie cron: both day fields must match if either is starred, otherwise either may. */
  predicate VixieRule(s: Schedule, n: int) {
    var domOk := FromOrdinal(n).day in s.doms;
    var dowOk := Weekday(n) in s.dows;
    if s.domStar || s.dowStar then domOk && dowOk else domOk || dowOk
  }

  /** The minutes the schedule would run under the Vixie rule. */
  predicate VixieMatches(s: Schedule, t: int) {
    FromOrdinal(DayOf(t)).month in s.months && VixieRule(s, DayOf(t)) && TimeMatches(s, t)
  }

  /** Day of month d occurs in some listed month. */
  predicate Occurs(s: Schedule, d: int) {
    exists m :: m in s.months && SomeYear(m, d)
  }

  /** Every day that occurs in a listed month is listed. */
  predicate CoversDoms(s: Schedule) {
    forall d :: 1 <= d <= 31 && Occurs(s, d) ==> d in s.doms
  }

  predicate AllDows(s: Schedule) {
    forall w :: 0 <= w <= 6 ==> w in s.dows
  }

  /** Some listed day occurs in a listed month. */
  predicate HasDate(s: Schedule) {
    exists d :: d in s.doms && Occurs(s, d)
  }

  /** When the code's rule and the Vixie rule give the same runs: a starred day of month lists
      every day its months have, and a starred day of week lists the whole week, unless the other
      field, unstarred, names no date at all. */
  predicate StarsAreFull(s: Schedule) {
    && (s.domStar ==> CoversDoms(s))
    && (s.dowStar ==> AllDows(s) || (!s.domStar && !HasDate(s)))
  }

  lemma DayOccurs(s: Schedule, n: int)
    ensures 0 <= Weekday(n) <= 6 && 1 <= FromOrdinal(n).day <= 31
    ensures FromOrdinal(n).month in s.months ==> Occurs(s, FromOrdinal(n).day)
  {
    hide FromOrdinal;
    FromOrdinalCorrect(n);
    ValidMonthDay(FromOrdinal(n).year, FromOrdinal(n).month, FromOrdinal(n).day);
  }

  /** A day of a listed month, with any day of the month it has and any weekday. */
  lemma DayWith(s: Schedule, d: int, w: int) returns (n: int)
    requires Occurs(s, d) && 0 <= w <= 6
    ensures FromOrdinal(n).month in s.months && FromOrdinal(n).day == d && Weekday(n) == w
  {
    hide FromOrdinal, Weekday;
    var m :| m in s.months && SomeYear(m, d);
    n := WeekdayMeetsDate(m, d, w);
  }

  /** A day of a listed month on which the rules differ, when the condition fails. */
  lemma RulesDiffer(s: Schedule) returns (n: int)
    requires Proper(s) && !StarsAreFull(s)
    ensures FromOrdinal(n).month in s.months && DayRule(s, n) && !VixieRule(s, n)
  {
    hide FromOrdinal, Weekday, Occurs;
    if s.domStar && !CoversDoms(s) {
      var d :| 1 <= d <= 31 && Occurs(s, d) && d !in s.doms;
      var w :| w in s.dows;
      n := DayWith(s, d, w);
    } else {
      var w :| 0 <= w <= 6 && w !in s.dows;
      var d: int;
      if s.domStar {
        var m :| m in s.months;
        d := 1;
        FirstOccurs(s, m);
      } else {
        d :| d in s.doms && Occurs(s, d);
      }
      n := DayWith(s, d, w);
    }
  }

  lemma FirstOccurs(s: Schedule, m: int)
    requires Proper(s) && m in s.months
    ensures Occurs(s, 1)
  {
    assert SomeYear(m, 1);
  }

  /** The code runs a schedule at exactly the minutes the Vixie rule would, if and only if its
      starred day fields are full. */
  lemma DayRuleIsVixie(s: Schedule)
    requires Proper(s)
    ensures (forall t :: Matches(s, t) <==> VixieMatches(s, t)) <==> StarsAreFull(s)
  {
    hide FromOrdinal, Weekday, DayOf, HourOf, MinuteOf, At, Occurs;
    if StarsAreFull(s) {
      forall t ensures Matches(s, t) <==> VixieMatches(s, t) {
        DayOccurs(s, DayOf(t));
      }
    } else {
      var n := RulesDiffer(s);
      var h :| h in s.hours;
      var m :| m in s.minutes;
      AtParts(n, h, m);
      assert Matches(s, At(n, h, m)) && !VixieMatches(s, At(n, h, m));
    }
  }
}
