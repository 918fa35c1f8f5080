/** Three schedules from their text: two on which `cron_next_run` departs from what its comments
    promise, and a keyword it keeps. */
module CronExamples {
  import opened Prelude
  import opened Calendar
  import opened CronFields
  import opened CronNotation
  import opened CronRun
  import opened Text

  const STEPPED := "0 0 */2 * 1"

  lemma SteppedDoms()
    ensures FieldValues("*/2", 1, 31, map[]).Some? && 2 !in FieldValues("*/2", 1, 31, map[]).value
  {
    hide FieldValues;
    var item := Every("*", "/2");
    assert DigitsValue("2") == 2;
    assert Render(item) == "*/2";
    OnePart(item, 1, 31, map[], 1);
  }

  /** The source's comment promises the Vixie rule; a stepped star in the day of month breaks
      it, since the code asks only how the field starts. */
  lemma SteppedStarIsNotVixie()
    ensures ParseSchedule(STEPPED).Some?
    ensures var s := ParseSchedule(STEPPED).value;
            s.domStar && !s.dowStar && exists t :: Matches(s, t) && !VixieMatches(s, t)
  {
    hide Words, FieldValues, ParseSchedule, FromOrdinal, IsDigit, DigitsValue, DayOf, HourOf, MinuteOf, Occurs;
    FiveFields("0", "0", "*/2", "*", "1");
    assert STEPPED == "0" + " " + "0" + " " + "*/2" + " " + "*" + " " + "1";
    Numbers();
    NumberField("0", 0, 0, 59, map[]);
    NumberField("0", 0, 0, 23, map[]);
    StarField(1, 12, MONTH_NAMES);
    NumberField("1", 1, 0, 7, DOW_NAMES);
    SteppedDoms();
    ParsesAs(STEPPED, ["0", "0", "*/2", "*", "1"]);
    assert "*/2"[..1] == "*" && "1"[0] != '*';
    SecondMissing(ParseSchedule(STEPPED).value);
  }

  lemma SecondMissing(s: Schedule)
    requires Proper(s) && s.domStar && 1 in s.months && 2 !in s.doms
    ensures exists t :: Matches(s, t) && !VixieMatches(s, t)
  {
    hide FromOrdinal, DayOf, HourOf, MinuteOf, At;
    assert Occurs(s, 2) by {
      assert SomeYear(1, 2);
    }
    var n := RulesDiffer(s);
    var h :| h in s.hours;
    var m :| m in s.minutes;
    AtParts(n, h, m);
    assert Matches(s, At(n, h, m)) && !VixieMatches(s, At(n, h, m));
  }

  const LEAP_ONLY := "0 0 29 2 *"

  lemma LeapOnlyFields()
    ensures Words(LEAP_ONLY) == ["0", "0", "29", "2", "*"]
    ensures FieldValues("0", 0, 59, map[]) == FieldValues("0", 0, 23, map[]) == Some({0})
    ensures FieldValues("29", 1, 31, map[]) == Some({29})
    ensures FieldValues("2", 1, 12, MONTH_NAMES) == Some({2})
  {
    hide Words, FieldValues, IsDigit, DigitsValue;
    FiveFields("0", "0", "29", "2", "*");
    assert LEAP_ONLY == "0" + " " + "0" + " " + "29" + " " + "2" + " " + "*";
    Numbers();
    MoreNumbers();
    NumberField("0", 0, 0, 59, map[]);
    NumberField("0", 0, 0, 23, map[]);
    NumberField("29", 29, 1, 31, map[]);
    NumberField("2", 2, 1, 12, MONTH_NAMES);
  }

  lemma LeapOnlyParses()
    ensures ParseSchedule(LEAP_ONLY).Some?
    ensures var s := ParseSchedule(LEAP_ONLY).value;
            s.doms == {29} && s.months == {2} && !s.domStar && s.dowStar
  {
    hide Words, FieldValues, ParseSchedule;
    LeapOnlyFields();
    StarField(0, 7, DOW_NAMES);
    ParsesAs(LEAP_ONLY, ["0", "0", "29", "2", "*"]);
    assert "29"[0] != '*';
  }

  /** On 1 March 2024 a 29 February schedule gets no next run, though it has one. */
  lemma LeapOnlyGetsNone(start: int)
    requires start == At(Ordinal(Date(2024, 3, 1)), 0, 0)
    ensures ParseSchedule(LEAP_ONLY).Some?
    ensures var s := ParseSchedule(LEAP_ONLY).value;
            && Scan(s, start, EndMinute(start)).None?
            && exists t :: start <= t && Matches(s, t)
  {
    hide ParseSchedule, DayOf, At, Matches, Ordinal, IsLeapDay;
    LeapOnlyParses();
    var s := ParseSchedule(LEAP_ONLY).value;
    NoLeapDay();
    AtParts(Ordinal(Date(2024, 3, 1)), 0, 0);
    NoneExactly(s, start);
    NoneMissesLeapRuns(s, start);
  }

  lemma NoLeapDay()
    ensures forall n :: Ordinal(Date(2024, 3, 1)) <= n < Ordinal(Date(2024, 3, 1)) + HORIZON_DAYS
                        ==> !IsLeapDay(n)
  {
    hide FromOrdinal;
    forall n | Ordinal(Date(2024, 3, 1)) <= n < Ordinal(Date(2024, 3, 1)) + HORIZON_DAYS
      ensures !IsLeapDay(n)
    {
      FromOrdinalCorrect(n);
      OrdinalInYear(FromOrdinal(n));
      var y := FromOrdinal(n).year;
      if y < 2024 {
        YearsGrow(y, 2024);
      } else if y > 2026 {
        YearsGrow(2026, y);
      }
    }
  }

  /** `@weekly` from any moment: the next run is midnight of a Sunday. */
  lemma WeeklyIsSundayMidnight(now: real)
    ensures NextRun("@weekly", now).Some?
    ensures var t := NextRun("@weekly", now).value;
            && DayOf(t) % 7 == 0 && HourOf(t) == 0 && MinuteOf(t) == 0
            && t as real * 60.0 > now
  {
    hide Words, FieldValues, ParseSchedule, DayOf, HourOf, MinuteOf, StartMinute;
    FiveFields("0", "0", "*", "*", "0");
    assert "0 0 * * 0" == "0" + " " + "0" + " " + "*" + " " + "*" + " " + "0";
    Numbers();
    NumberField("0", 0, 0, 59, map[]);
    NumberField("0", 0, 0, 23, map[]);
    StarField(1, 31, map[]);
    StarField(1, 12, MONTH_NAMES);
    NumberField("0", 0, 0, 7, DOW_NAMES);
    assert KEYWORD_SPECS["@weekly"] == "0 0 * * 0";
    ParsesAs("@weekly", ["0", "0", "*", "*", "0"]);
    assert "*"[..1] == "*" && "0"[0] != '*';
    NextRunNoneExactly("@weekly", now);
    NextRunIsFirst("@weekly", now);
  }
}
