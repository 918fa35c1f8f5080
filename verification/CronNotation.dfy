/** Crontab notation from its text: what fields spelled with decimal numbers denote, which texts
    parse, and what the keywords and names stand for. */
module CronNotation {
  import opened Prelude
  import opened Calendar
  import opened CronFields
  import opened CronRun
  import opened Text

  /** A field of one part written by the grammar. */
  lemma OnePart(item: Item, lo: int, hi: int, names: Names, v: int)
    requires WellFormed(item, names) && ',' !in Render(item)
    requires Denotes(item, lo, hi, names, v)
    requires forall u :: Denotes(item, lo, hi, names, u) ==> lo <= u <= hi
    ensures FieldValues(Render(item), lo, hi, names).Some?
    ensures forall u :: u in FieldValues(Render(item), lo, hi, names).value
                   <==> Denotes(item, lo, hi, names, u)
  {
    hide WellFormed, Render, Denotes, FieldValues, Split;
    SplitNoSeparator(Render(item), ',');
    FieldMeaning(Render(item), lo, hi, names, [item]);
    assert Denoted([item], lo, hi, names, v) by {
      assert Denotes([item][0], lo, hi, names, v);
    }
    forall u ensures Denoted([item], lo, hi, names, u) <==> Denotes(item, lo, hi, names, u) {
      assert [item][0] == item;
    }
  }

  /** The plain `*` field. */
  lemma StarField(lo: int, hi: int, names: Names)
    requires lo <= hi
    ensures FieldValues("*", lo, hi, names).Some?
    ensures forall u :: u in FieldValues("*", lo, hi, names).value <==> lo <= u <= hi
  {
    var item := Every("*", "");
    assert Render(item) == "*";
    OnePart(item, lo, hi, names, lo);
  }

  /** A field that is one decimal number of one or two digits. */
  lemma NumberField(text: string, n: int, lo: int, hi: int, names: Names)
    requires lo <= n <= hi
    requires Lower(text) !in names && IsDigit(text) && DigitsValue(text) == n
    ensures FieldValues(text, lo, hi, names) == Some({n})
  {
    var item := Single(text, "");
    DigitsOnly(text);
    assert '*' in "*";
    assert Resolve(text, names) == Some(n);
    hide Resolve, DigitsValue, IsDigit, FieldValues;
    assert WellFormed(item, names);
    assert Render(item) == text + "" == text;
    OnePart(item, lo, hi, names, n);
    assert FieldValues(text, lo, hi, names).value == {n};
  }

  lemma DigitsOnly(text: string)
    requires IsDigit(text)
    ensures ',' !in text && '-' !in text && '/' !in text && '*' !in text
  {
  }

  lemma FiveFields(a: string, b: string, c: string, d: string, e: string)
    requires IsWord(a) && IsWord(b) && IsWord(c) && IsWord(d) && IsWord(e)
    ensures Words(a + " " + b + " " + c + " " + d + " " + e) == [a, b, c, d, e]
  {
    hide Words;
    var f := [a, b, c, d, e];
    WordsJoin(f);
    assert f[1..] == [b, c, d, e] && f[1..][1..] == [c, d, e];
    assert f[1..][1..][1..] == [d, e] && f[1..][1..][1..][1..] == [e];
    assert Join([d, e], ' ') == d + [' '] + e;
    assert Join([c, d, e], ' ') == c + [' '] + (d + [' '] + e);
    assert Join(f, ' ') == a + " " + b + " " + c + " " + d + " " + e;
  }

  /** Five fields, each a field of its own range. */
  predicate FieldsParse(f: seq<string>) {
    && |f| == 5
    && FieldValues(f[0], 0, 59, map[]).Some? && FieldValues(f[1], 0, 23, map[]).Some?
    && FieldValues(f[2], 1, 31, map[]).Some? && FieldValues(f[3], 1, 12, MONTH_NAMES).Some?
    && FieldValues(f[4], 0, 7, DOW_NAMES).Some?
  }

  lemma ParsesAs(text: string, f: seq<string>)
    requires Words(if text in KEYWORD_SPECS then KEYWORD_SPECS[text] else text) == f && FieldsParse(f)
    ensures ParseSchedule(text) == Some(Schedule(
                FieldValues(f[0], 0, 59, map[]).value, FieldValues(f[1], 0, 23, map[]).value,
                FieldValues(f[2], 1, 31, map[]).value, FieldValues(f[3], 1, 12, MONTH_NAMES).value,
                Fold7(FieldValues(f[4], 0, 7, DOW_NAMES).value), "*" <= f[2], "*" <= f[4]))
  {
    hide Words, FieldValues;
  }

  lemma Numbers()
    ensures IsDigit("0") && DigitsValue("0") == 0
    ensures IsDigit("1") && DigitsValue("1") == 1
  {
  }

  lemma MoreNumbers()
    ensures IsDigit("2") && DigitsValue("2") == 2
    ensures IsDigit("29") && DigitsValue("29") == 29
  {
    assert DigitsValue("29") == DigitsValue("2") * 10 + DigitValue('9');
  }

  // ---- Steps and ranges in decimal ----

  /** No name is spelled with digits alone. */
  predicate NoNumerals(names: Names) {
    forall t :: t in names ==> !IsDigit(t)
  }

  lemma {:induction false} LowerDigits(text: string)
    requires IsDigit(text)
    ensures Lower(text) == text
  {
  }

  lemma DecimalToken(a: nat, names: Names)
    requires NoNumerals(names)
    ensures Resolve(Decimal(a), names) == Some(a)
    ensures Decimal(a) != ""
    ensures '*' !in Decimal(a) && ',' !in Decimal(a) && '-' !in Decimal(a) && '/' !in Decimal(a)
  {
    IntOfDecimal(a);
    LowerDigits(Decimal(a));
    DigitsOnly(Decimal(a));
  }

  lemma DecimalStep(k: nat)
    requires k >= 1
    ensures StepOf(Decimal(k)) == k && ',' !in Decimal(k)
  {
    IntOfDecimal(k);
    DigitsOnly(Decimal(k));
  }

  /** `*` with step k: every k-th value from lo. */
  lemma SteppedStar(k: nat, lo: int, hi: int, names: Names)
    requires k >= 1 && lo <= hi
    ensures FieldValues("*/" + Decimal(k), lo, hi, names).Some?
    ensures forall v :: v in FieldValues("*/" + Decimal(k), lo, hi, names).value
                   <==> lo <= v <= hi && (v - lo) % k == 0
  {
    hide FieldValues, StepOf, Decimal;
    DecimalStep(k);
    var item := Every("*", "/" + Decimal(k));
    assert item.step[1..] == Decimal(k);
    assert Render(item) == "*/" + Decimal(k);
    OnePart(item, lo, hi, names, lo);
  }

  /** A value with a step above 1: every k-th value from it up to hi. */
  lemma SteppedValue(a: nat, k: nat, lo: int, hi: int, names: Names)
    requires k >= 2 && lo <= a <= hi && NoNumerals(names)
    ensures FieldValues(Decimal(a) + "/" + Decimal(k), lo, hi, names).Some?
    ensures forall v :: v in FieldValues(Decimal(a) + "/" + Decimal(k), lo, hi, names).value
                   <==> a <= v <= hi && (v - a) % k == 0
  {
    hide FieldValues, StepOf, Decimal, Resolve;
    DecimalToken(a, names);
    DecimalStep(k);
    var item := Single(Decimal(a), "/" + Decimal(k));
    assert item.step[1..] == Decimal(k);
    assert Render(item) == Decimal(a) + "/" + Decimal(k);
    assert '*' in "*";
    OnePart(item, lo, hi, names, a);
  }

  /** A value with step 1 is the value alone, and so is the value without a step. */
  lemma UnsteppedValue(a: nat, lo: int, hi: int, names: Names)
    requires lo <= a <= hi && NoNumerals(names)
    ensures FieldValues(Decimal(a) + "/1", lo, hi, names) == Some({a as int})
    ensures FieldValues(Decimal(a), lo, hi, names) == Some({a as int})
  {
    hide FieldValues, Decimal, Resolve;
    DecimalToken(a, names);
    assert '*' in "*";
    assert StepOf("1") == 1 by {
      Numbers();
    }
    hide StepOf;
    var item, bare := Single(Decimal(a), "/1"), Single(Decimal(a), "");
    assert item.step[1..] == "1";
    assert Render(item) == Decimal(a) + "/1" && Render(bare) == Decimal(a);
    OnePart(item, lo, hi, names, a);
    OnePart(bare, lo, hi, names, a);
    OnlyOne(FieldValues(Decimal(a) + "/1", lo, hi, names).value, a);
    OnlyOne(FieldValues(Decimal(a), lo, hi, names).value, a);
  }

  lemma OnlyOne(s: set<int>, n: int)
    requires forall v :: v in s <==> v == n
    ensures s == {n}
  {
    assert forall v :: v in s <==> v in {n};
  }

  /** A range with a step: every k-th value from a to b. */
  lemma SteppedRange(a: nat, b: nat, k: nat, lo: int, hi: int, names: Names)
    requires k >= 1 && lo <= a <= b <= hi && NoNumerals(names)
    ensures FieldValues(Decimal(a) + "-" + Decimal(b) + "/" + Decimal(k), lo, hi, names).Some?
    ensures forall v :: v in FieldValues(Decimal(a) + "-" + Decimal(b) + "/" + Decimal(k), lo, hi, names).value
                   <==> a <= v <= b && (v - a) % k == 0
  {
    hide FieldValues, StepOf, Decimal, Resolve;
    DecimalToken(a, names);
    DecimalToken(b, names);
    DecimalStep(k);
    var item := Range(Decimal(a), Decimal(b), "/" + Decimal(k));
    assert item.step[1..] == Decimal(k);
    assert Render(item) == Decimal(a) + "-" + Decimal(b) + "/" + Decimal(k);
    OnePart(item, lo, hi, names, a);
  }

  /** A range without a step: all of it. */
  lemma PlainRange(a: nat, b: nat, lo: int, hi: int, names: Names)
    requires lo <= a <= b <= hi && NoNumerals(names)
    ensures FieldValues(Decimal(a) + "-" + Decimal(b), lo, hi, names).Some?
    ensures forall v :: v in FieldValues(Decimal(a) + "-" + Decimal(b), lo, hi, names).value <==> a <= v <= b
  {
    hide FieldValues, StepOf, Decimal, Resolve;
    DecimalToken(a, names);
    DecimalToken(b, names);
    var item := Range(Decimal(a), Decimal(b), "");
    assert Render(item) == Decimal(a) + "-" + Decimal(b);
    OnePart(item, lo, hi, names, a);
  }

  /** A step that is zero, or no number, spoils the whole field, whatever the part before it. */
  lemma BadStep(part: string, step: string, rest: string, lo: int, hi: int, names: Names)
    requires ',' !in part && '/' !in part && ',' !in step
    requires IsDigit(step) ==> ParseInt(step) == Some(0)
    ensures FieldValues(part + "/" + step, lo, hi, names).None?
    ensures FieldValues(part + "/" + step + "," + rest, lo, hi, names).None?
  {
    var text := part + "/" + step;
    assert text == part + ("/" + step);
    IndexOfConcat(part, "/" + step, '/');
    assert text[|part| + 1..] == step;
    assert PartSpan(text, lo, hi, names).None?;
    hide PartSpan, Split;
    SplitNoSeparator(text, ',');
    assert Split(text, ',')[0] == text;
    SplitConcat(text, rest, ',');
    assert text + [','] + rest == part + "/" + step + "," + rest;
    assert Split(part + "/" + step + "," + rest, ',')[0] == text;
  }

  // ---- Which texts parse ----

  /** A text that is no keyword parses exactly when it is five fields that each parse, in their
      own ranges; day 7 is day 0, and a day field counts as starred by its first character. */
  lemma FiveFieldsParse(text: string)
    requires text == "" || text[0] != '@'
    ensures var f := Words(text);
            ParseSchedule(text).Some? <==> FieldsParse(f)
    ensures match ParseSchedule(text)
            case None => true
            case Some(s) =>
              var f := Words(text);
              && s.minutes == FieldValues(f[0], 0, 59, map[]).value
              && s.hours == FieldValues(f[1], 0, 23, map[]).value
              && s.doms == FieldValues(f[2], 1, 31, map[]).value
              && s.months == FieldValues(f[3], 1, 12, MONTH_NAMES).value
              && IsFolded(s.dows, FieldValues(f[4], 0, 7, DOW_NAMES).value)
              && (s.domStar <==> f[2] != "" && f[2][0] == '*')
              && (s.dowStar <==> f[4] != "" && f[4][0] == '*')
  {
    hide Words, FieldValues, ParseSchedule, Fold7, IsFolded, Proper, MONTH_NAMES, DOW_NAMES, KEYWORD_SPECS;
    KeywordsStart();
    assert text !in KEYWORD_SPECS;
    var f := Words(text);
    ParsesOnly(text);
    if FieldsParse(f) {
      ParsesAs(text, f);
      DowsWithin(f[4]);
      FoldIsSunday(FieldValues(f[4], 0, 7, DOW_NAMES).value);
    }
  }

  lemma ParsesOnly(text: string)
    requires text !in KEYWORD_SPECS
    ensures ParseSchedule(text).Some? ==> FieldsParse(Words(text))
  {
    hide Words, FieldValues, Proper;
  }

  lemma DowsWithin(spec: string)
    ensures match FieldValues(spec, 0, 7, DOW_NAMES)
            case None => true
            case Some(values) => forall d :: d in values ==> 0 <= d <= 7
  {
    FieldSubset(spec, 0, 7, DOW_NAMES);
  }

  /** `dows` are the days given, 7 read as 0. */
  predicate IsFolded(dows: set<int>, given: set<int>) {
    && (forall d :: d in dows ==> 0 <= d <= 6 && (d in given || (d == 0 && 7 in given)))
    && (forall d :: d in given ==> (if d == 7 then 0 else d) in dows)
  }

  lemma FoldIsSunday(given: set<int>)
    requires forall d :: d in given ==> 0 <= d <= 7
    ensures IsFolded(Fold7(given), given)
  {
    forall d | d in given ensures (if d == 7 then 0 else d) in Fold7(given) {
      assert d % 7 in Fold7(given);
    }
  }

  lemma KeywordsStart()
    ensures forall k :: k in KEYWORD_SPECS ==> k != "" && k[0] == '@'
  {
  }

  lemma KeywordIs(keyword: string, spec: string)
    requires keyword in KEYWORD_SPECS && KEYWORD_SPECS[keyword] == spec
    requires spec != "" && spec[0] != '@'
    ensures ParseSchedule(keyword) == ParseSchedule(spec)
  {
    hide Words, FieldValues;
    KeywordsStart();
  }

  /** A keyword is its spec, and any other text starting with `@`, as `@reboot`, is nothing. */
  lemma Keywords(text: string, now: real)
    ensures ParseSchedule("@hourly") == ParseSchedule("0 * * * *")
    ensures ParseSchedule("@daily") == ParseSchedule("@midnight") == ParseSchedule("0 0 * * *")
    ensures ParseSchedule("@weekly") == ParseSchedule("0 0 * * 0")
    ensures ParseSchedule("@monthly") == ParseSchedule("0 0 1 * *")
    ensures ParseSchedule("@yearly") == ParseSchedule("@annually") == ParseSchedule("0 0 1 1 *")
    ensures |Words(text)| != 5 && text !in {"@hourly", "@daily", "@midnight", "@weekly", "@monthly",
                                            "@yearly", "@annually"}
            ==> NextRun(text, now).None?
  {
    hide Words, ParseSchedule;
    KeywordIs("@hourly", "0 * * * *");
    KeywordIs("@daily", "0 0 * * *");
    KeywordIs("@midnight", "0 0 * * *");
    KeywordIs("@weekly", "0 0 * * 0");
    KeywordIs("@monthly", "0 0 1 * *");
    KeywordIs("@yearly", "0 0 1 1 *");
    KeywordIs("@annually", "0 0 1 1 *");
    if text !in KEYWORD_SPECS && |Words(text)| != 5 {
      NotFiveFields(text);
    }
  }

  lemma NotFiveFields(text: string)
    requires text !in KEYWORD_SPECS && |Words(text)| != 5
    ensures ParseSchedule(text).None?
  {
    hide Words, FieldValues;
  }

  /** The names of the months, in any case. */
  lemma MonthNames(token: string)
    ensures Lower(token) == "jan" ==> Resolve(token, MONTH_NAMES) == Some(1)
    ensures Lower(token) == "feb" ==> Resolve(token, MONTH_NAMES) == Some(2)
    ensures Lower(token) == "mar" ==> Resolve(token, MONTH_NAMES) == Some(3)
    ensures Lower(token) == "apr" ==> Resolve(token, MONTH_NAMES) == Some(4)
    ensures Lower(token) == "may" ==> Resolve(token, MONTH_NAMES) == Some(5)
    ensures Lower(token) == "jun" ==> Resolve(token, MONTH_NAMES) == Some(6)
    ensures Lower(token) == "jul" ==> Resolve(token, MONTH_NAMES) == Some(7)
    ensures Lower(token) == "aug" ==> Resolve(token, MONTH_NAMES) == Some(8)
    ensures Lower(token) == "sep" ==> Resolve(token, MONTH_NAMES) == Some(9)
    ensures Lower(token) == "oct" ==> Resolve(token, MONTH_NAMES) == Some(10)
    ensures Lower(token) == "nov" ==> Resolve(token, MONTH_NAMES) == Some(11)
    ensures Lower(token) == "dec" ==> Resolve(token, MONTH_NAMES) == Some(12)
  {
    hide Lower;
  }

  /** The names of the days of the week, in any case. */
  lemma DayNames(token: string)
    ensures Lower(token) == "sun" ==> Resolve(token, DOW_NAMES) == Some(0)
    ensures Lower(token) == "mon" ==> Resolve(token, DOW_NAMES) == Some(1)
    ensures Lower(token) == "tue" ==> Resolve(token, DOW_NAMES) == Some(2)
    ensures Lower(token) == "wed" ==> Resolve(token, DOW_NAMES) == Some(3)
    ensures Lower(token) == "thu" ==> Resolve(token, DOW_NAMES) == Some(4)
    ensures Lower(token) == "fri" ==> Resolve(token, DOW_NAMES) == Some(5)
    ensures Lower(token) == "sat" ==> Resolve(token, DOW_NAMES) == Some(6)
  {
    hide Lower;
  }

  /** Case does not matter: a letter and its capital read alike, other characters stay. */
  lemma LowerLetters(token: string)
    ensures |Lower(token)| == |token|
    ensures forall i :: 0 <= i < |token| ==>
              Lower(token)[i] as int == if 'A' <= token[i] <= 'Z' then token[i] as int + 32 else token[i] as int
  {
  }

  /** The numbers of the two name tables, and of plain fields, are free for decimal numbers. */
  lemma NamesAreNoNumerals()
    ensures NoNumerals(map[]) && NoNumerals(MONTH_NAMES) && NoNumerals(DOW_NAMES)
  {
    forall t | t in MONTH_NAMES || t in DOW_NAMES ensures !IsDigit(t) {
      assert !Digit(t[0]);
    }
  }

  /** What a schedule asks of a civil date and time. */
  lemma MatchesAt(s: Schedule, date: Date, h: int, m: int)
    requires Valid(date) && 0 <= h <= 23 && 0 <= m <= 59
    ensures var domOk, dowOk := date.day in s.doms, Weekday(Ordinal(date)) in s.dows;
            Matches(s, Ordinal(date) * 1440 + h * 60 + m)
            <==> m in s.minutes && h in s.hours && date.month in s.months
                 && (if s.domStar then s.dowStar || dowOk
                     else if s.dowStar then domOk else domOk || dowOk)
  {
    hide Ordinal, FromOrdinal, Weekday, DayOf, HourOf, MinuteOf, At;
    OrdinalRoundTrip(date);
    AtParts(Ordinal(date), h, m);
    assert At(Ordinal(date), h, m) == Ordinal(date) * 1440 + h * 60 + m by {
      AtIs(Ordinal(date), h, m);
    }
  }

  lemma AtIs(n: int, h: int, m: int)
    ensures At(n, h, m) == n * 1440 + h * 60 + m
  {
  }

  /** The search covers 732 days, that of the first whole minute after `now` included: a time is
      returned for a parsed schedule exactly when it runs at some minute of them. */
  lemma HorizonIs732Days(schedule: string, now: real)
    requires ParseSchedule(schedule).Some?
    ensures var end := ((now / 60.0).Floor + 1) / 1440 * 1440 + 732 * 1440;
            NextRun(schedule, now).Some?
            <==> exists t: int :: now < t as real * 60.0 && t < end && Matches(ParseSchedule(schedule).value, t)
  {
    hide ParseSchedule, Matches;
    var start := StartMinute(now);
    assert start == (now / 60.0).Floor + 1;
    assert EndMinute(start) == start / 1440 * 1440 + 732 * 1440;
    if t: int :| now < t as real * 60.0 && t < EndMinute(start) && Matches(ParseSchedule(schedule).value, t) {
      assert t >= start;
    }
  }
}
