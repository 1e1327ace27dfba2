/**
 * The date and time helpers: calendar validation, two-digit padding, the
 * `YYYY-MM-DD` / `YYYY-MM-DDThh:mm:ss` builder and the parser that reads
 * those shapes back into field records.
 *
 * JavaScript numbers are modelled as integers; a date field that is not a
 * digit string reads as "not a number" (`None`).
 */
module DateTimeHelper {
  import opened Outcomes
  import opened Text

  /** The fields of a date value (`DatePIOInterface`). */
  datatype DateFields = DateFields(year: int, month: int, day: int)

  /** The fields of a date-time value (`DateTimePIOInterface`). */
  datatype DateTimeFields = DateTimeFields(year: int, month: int, day: int, hour: int, minute: int, second: int)

  /** What the parser returns: a date, or a date with a time of day. */
  datatype DateObject = DateOnly(date: DateFields) | DateAndTime(dateTime: DateTimeFields)

  // ------------------------------------------------------------ validation

  /** The leap-year test as written: `y % 400 == 0 || (y % 100 != 0 && y % 4 == 0)`. */
  predicate IsLeapYear(y: int)
  {
    y % 400 == 0 || (y % 100 != 0 && y % 4 == 0)
  }

  /** The month-length table, with February patched to 29 when `leap`. */
  function MonthTable(leap: bool): (lengths: seq<int>)
    ensures |lengths| == 12
  {
    var monthLength := [31, 28, 31, 30, 31, 30, 31, 31, 30, 31, 30, 31];
    if leap then monthLength[1 := 29] else monthLength
  }

  function MonthLengths(y: int): (lengths: seq<int>)
    ensures |lengths| == 12
  {
    MonthTable(IsLeapYear(y))
  }

  /** `validateDate`: year and month ranges first, then the day against the month's length. */
  predicate ValidDate(y: int, m: int, d: int)
  {
    if y < 1000 || y > 3000 || m <= 0 || m > 12 then false
    else d > 0 && d <= MonthLengths(y)[m - 1]
  }

  /** `validateTime`. */
  predicate ValidTime(h: int, mi: int, s: int)
  {
    h >= 0 && h < 24 && mi >= 0 && mi < 60 && s >= 0 && s < 60
  }

  /** `validateDateTime`: the time arguments default to midnight and the date error wins. */
  function ValidateDateTime(y: int, m: int, d: int, h: int := 0, mi: int := 0, s: int := 0): (r: Outcome)
    ensures r == Pass <==> ValidDate(y, m, d) && ValidTime(h, mi, s)
    ensures r == Fail(DateValidationFailed) <==> !ValidDate(y, m, d)
    ensures r == Fail(TimeValidationFailed) <==> ValidDate(y, m, d) && !ValidTime(h, mi, s)
  {
    if !ValidDate(y, m, d) then Fail(DateValidationFailed)
    else if !ValidTime(h, mi, s) then Fail(TimeValidationFailed)
    else Pass
  }

  /** The Gregorian leap-year rule as stated in Appendix C of RFC 3339. */
  predicate GregorianLeapYear(y: int)
  {
    y % 4 == 0 && (y % 100 != 0 || y % 400 == 0)
  }

  /** The number of days in a month, as listed in section 5.7 of RFC 3339. */
  function DaysInMonth(y: int, m: int): int
    requires 1 <= m <= 12
  {
    if m == 2 then (if GregorianLeapYear(y) then 29 else 28)
    else if m == 4 || m == 6 || m == 9 || m == 11 then 30
    else 31
  }

  lemma LeapYearRules(y: int)
    ensures IsLeapYear(y) <==> GregorianLeapYear(y)
  {
    if y % 400 == 0 {
      assert y % 4 == 0 && y % 100 == 0 by { assert y == 400 * (y / 400); }
    }
  }

  /** The table agrees with the calendar month by month. */
  lemma MonthLengthsAreCalendar(y: int, m: int)
    requires 1 <= m <= 12
    ensures MonthLengths(y)[m - 1] == DaysInMonth(y, m)
  {
    LeapYearRules(y);
  }

  /** A date is accepted exactly when its year, month and day are all in range. */
  lemma ValidDateIff(y: int, m: int, d: int)
    ensures ValidDate(y, m, d) <==> 1000 <= y <= 3000 && 1 <= m <= 12 && 1 <= d <= DaysInMonth(y, m)
  {
    if 1 <= m <= 12 {
      MonthLengthsAreCalendar(y, m);
    }
  }

  lemma CalendarExamples()
    ensures ValidDate(2000, 2, 29) && ValidDate(2024, 2, 29) && ValidDate(3000, 12, 31)
    ensures !ValidDate(1900, 2, 29) && !ValidDate(2001, 2, 29) && !ValidDate(2020, 6, 31)
    ensures !ValidDate(999, 1, 1) && !ValidDate(3001, 1, 1) && !ValidDate(2020, 13, 1) && !ValidDate(2020, 1, 0)
    ensures ValidTime(23, 59, 59) && !ValidTime(24, 0, 0) && !ValidTime(23, 60, 0) && !ValidTime(23, 59, 60)
    ensures ValidateDateTime(2020, 2, 30, 25) == Fail(DateValidationFailed)
  {
  }

  // --------------------------------------------------------------- padding

  /** `dateTimeIntegerToString`: a leading zero exactly for 0..9. */
  function DateTimeIntegerToString(n: int): (r: string)
    ensures 0 <= n < 10 ==> r == "0" + IntToString(n)
    ensures !(0 <= n < 10) ==> r == IntToString(n)
    ensures 0 <= n < 100 ==> |r| == 2 && AllDigits(r) && ParseDigits(r) == n
  {
    if 0 <= n && n < 10 then
      assert IntToString(n) == [DigitChar(n)];
      assert ParseDigits("0" + IntToString(n)) == ParseDigits("0") * 10 + n;
      "0" + IntToString(n)
    else if 10 <= n < 100 then
      NatToStringTwoDigits(n);
      ParseDigitsOfNatToString(n);
      IntToString(n)
    else
      IntToString(n)
  }

  /** Padding is one-to-one on 0..99, so two fields never print alike. */
  lemma PaddingInjective(a: int, b: int)
    requires 0 <= a < 100 && 0 <= b < 100
    requires DateTimeIntegerToString(a) == DateTimeIntegerToString(b)
    ensures a == b
  {
  }

  // -------------------------------------------------------------- building

  /** The `year-MM-DD` text. */
  function DateString(y: int, m: int, d: int): string
  {
    IntToString(y) + "-" + DateTimeIntegerToString(m) + "-" + DateTimeIntegerToString(d)
  }

  /** The `hh:mm:ss` text. */
  function TimeString(h: int, mi: int, s: int): string
  {
    DateTimeIntegerToString(h) + ":" + DateTimeIntegerToString(mi) + ":" + DateTimeIntegerToString(s)
  }

  /** `buildDateTimeString`: no validation; "date" drops the time, "date_time" adds it without `Z`. */
  function BuildDateTimeString(mode: string, y: int, m: int, d: int, h: int := 0, mi: int := 0, s: int := 0): (r: Result<string>)
    ensures r.Ok? <==> mode == "date" || mode == "date_time"
    ensures r.Err? ==> r.error == WrongMode
    ensures mode == "date" ==> r.value == DateString(y, m, d)
    ensures mode == "date_time" ==> r.value == DateString(y, m, d) + "T" + TimeString(h, mi, s)
  {
    var dateString := DateString(y, m, d);
    if mode == "date" then Ok(dateString)
    else if mode == "date_time" then Ok(dateString + "T" + TimeString(h, mi, s))
    else Err(WrongMode)
  }

  /** In "date" mode the time arguments make no difference. */
  lemma DateModeIgnoresTime(y: int, m: int, d: int, h: int, mi: int, s: int)
    ensures BuildDateTimeString("date", y, m, d, h, mi, s) == BuildDateTimeString("date", y, m, d)
  {
  }

  lemma YearTextExample()
    ensures IntToString(2023) == "2023"
  {
    assert NatToString(20) == "20" && NatToString(202) == "202";
  }

  lemma DateStringExample()
    ensures DateString(2023, 9, 21) == "2023-09-21"
  {
    YearTextExample();
    assert DateTimeIntegerToString(9) == "09" && DateTimeIntegerToString(21) == "21";
  }

  lemma TimeStringExample()
    ensures TimeString(12, 30, 5) == "12:30:05"
  {
    assert DateTimeIntegerToString(12) == "12" && DateTimeIntegerToString(30) == "30";
    assert DateTimeIntegerToString(5) == "05";
  }

  lemma BuildDateExample()
    ensures BuildDateTimeString("date", 2023, 9, 21) == Ok("2023-09-21")
  {
    DateStringExample();
  }

  lemma BuildDateTimeExample()
    ensures BuildDateTimeString("date_time", 2023, 9, 21, 12, 30, 5) == Ok("2023-09-21T12:30:05")
    ensures BuildDateTimeString("time", 2023, 9, 21) == Err(WrongMode)
  {
    DateStringExample();
    TimeStringExample();
    assert "2023-09-21" + "T" + "12:30:05" == "2023-09-21T12:30:05";
  }

  // --------------------------------------------------------------- parsing

  /** The regular expression `(\d{2}):(\d{2}):(\d{2})` matches at index `i` of `t`. */
  predicate TimeAt(t: string, i: int)
  {
    0 <= i && i + 8 <= |t|
    && IsDigit(t[i]) && IsDigit(t[i + 1]) && t[i + 2] == ':'
    && IsDigit(t[i + 3]) && IsDigit(t[i + 4]) && t[i + 5] == ':'
    && IsDigit(t[i + 6]) && IsDigit(t[i + 7])
  }

  /** The leftmost match of the time pattern at or after index `i`. */
  function FindTimeFrom(t: string, i: nat): (r: Option<nat>)
    requires i <= |t|
    ensures r.Some? ==> i <= r.value && TimeAt(t, r.value)
    ensures r.Some? ==> forall j :: i <= j < r.value ==> !TimeAt(t, j)
    ensures r.None? ==> forall j :: i <= j ==> !TimeAt(t, j)
    decreases |t| - i
  {
    if i + 8 > |t| then None
    else if TimeAt(t, i) then Some(i)
    else FindTimeFrom(t, i + 1)
  }

  /** `t.match(/(\d{2}):(\d{2}):(\d{2})/)`: the index of the leftmost match, if any. */
  function FindTime(t: string): (r: Option<nat>)
    ensures r.Some? ==> TimeAt(t, r.value) && forall j :: 0 <= j < r.value ==> !TimeAt(t, j)
    ensures r.None? <==> forall j :: 0 <= j ==> !TimeAt(t, j)
  {
    FindTimeFrom(t, 0)
  }

  /** The three date fields as `Number` reads them; `None` stands for `NaN`. */
  function DateNumbers(dateParts: seq<string>): (seq<Option<nat>>)
    requires |dateParts| == 3
  {
    [Number(dateParts[0]), Number(dateParts[1]), Number(dateParts[2])]
  }

  /** The text before the first `T` splits on `-` into pieces of 4, 2 and 2 characters. */
  predicate HasDateShape(s: string)
  {
    var dateParts := Split(BeforeFirst(s, 'T'), '-');
    |dateParts| == 3 && |dateParts[0]| == 4 && |dateParts[1]| == 2 && |dateParts[2]| == 2
  }

  /**
   * `parseStringToDateObject`. Exactly one `T` asks for a time of day taken
   * from the leftmost `hh:mm:ss` match after it; no `T`, or more than one,
   * gives a date only. A date field that is not a number fails validation.
   */
  function ParseStringToDateObject(s: string): (r: Result<DateObject>)
    ensures !HasDateShape(s) <==> r == Err(NotADateString)
    ensures r == Err(NoTimeMatch) <==> HasDateShape(s) && |Split(s, 'T')| == 2 && FindTime(Split(s, 'T')[1]).None?
    ensures r.Ok? ==> (r.value.DateAndTime? <==> |Split(s, 'T')| == 2)
    ensures r.Ok? && r.value.DateOnly? ==> ValidDate(r.value.date.year, r.value.date.month, r.value.date.day)
    ensures r.Ok? && r.value.DateAndTime? ==>
              var f := r.value.dateTime;
              ValidDate(f.year, f.month, f.day) && ValidTime(f.hour, f.minute, f.second)
    // Without a single `T`: the numbers of the three date pieces, if they are a valid date.
    ensures HasDateShape(s) && |Split(s, 'T')| != 2 ==>
              var n := DateNumbers(Split(BeforeFirst(s, 'T'), '-'));
              if n[0].Some? && n[1].Some? && n[2].Some? && ValidDate(n[0].value, n[1].value, n[2].value)
              then r == Ok(DateOnly(DateFields(n[0].value, n[1].value, n[2].value)))
              else r == Err(DateValidationFailed)
    // With a single `T` and a time match: those numbers and the three two-digit
    // numbers of the leftmost match, if they are a valid date and time of day.
    ensures HasDateShape(s) && |Split(s, 'T')| == 2 && FindTime(Split(s, 'T')[1]).Some? ==>
              var n := DateNumbers(Split(BeforeFirst(s, 'T'), '-'));
              var t := Split(s, 'T')[1];
              var i := FindTime(t).value;
              var h, mi, sec := ParseDigits(t[i..i + 2]), ParseDigits(t[i + 3..i + 5]), ParseDigits(t[i + 6..i + 8]);
              if !(n[0].Some? && n[1].Some? && n[2].Some? && ValidDate(n[0].value, n[1].value, n[2].value))
              then r == Err(DateValidationFailed)
              else if !ValidTime(h, mi, sec) then r == Err(TimeValidationFailed)
              else r == Ok(DateAndTime(DateTimeFields(n[0].value, n[1].value, n[2].value, h, mi, sec)))
  {
    var parts := Split(s, 'T');
    var dateParts := Split(parts[0], '-');
    if |dateParts| == 3 && |dateParts[0]| == 4 && |dateParts[1]| == 2 && |dateParts[2]| == 2 then
      var numbers := DateNumbers(dateParts);
      if |parts| == 2 then
        match FindTime(parts[1])
        case None => Err(NoTimeMatch)
        case Some(i) =>
          var t := parts[1];
          var hour, minute, second := ParseDigits(t[i..i + 2]), ParseDigits(t[i + 3..i + 5]), ParseDigits(t[i + 6..i + 8]);
          if numbers[0].None? || numbers[1].None? || numbers[2].None? then Err(DateValidationFailed)
          else
            var year, month, day := numbers[0].value, numbers[1].value, numbers[2].value;
            match ValidateDateTime(year, month, day, hour, minute, second)
            case Fail(e) => Err(e)
            case Pass => Ok(DateAndTime(DateTimeFields(year, month, day, hour, minute, second)))
      else
        if numbers[0].None? || numbers[1].None? || numbers[2].None? then Err(DateValidationFailed)
        else
          var year, month, day := numbers[0].value, numbers[1].value, numbers[2].value;
          match ValidateDateTime(year, month, day)
          case Fail(e) => Err(e)
          case Pass => Ok(DateOnly(DateFields(year, month, day)))
    else
      Err(NotADateString)
  }

  // ------------------------------------------------------------ round trips

  /** A digit string holds neither separator. */
  lemma DigitsAvoid(s: string)
    requires AllDigits(s)
    ensures 'T' !in s && '-' !in s && ':' !in s
  {
  }

  /** The pieces of a built date string, and the numbers they read as. */
  lemma DateStringPieces(y: int, m: int, d: int)
    requires 1000 <= y <= 9999 && 0 <= m < 100 && 0 <= d < 100
    ensures 'T' !in DateString(y, m, d)
    ensures Split(DateString(y, m, d), '-') == [IntToString(y), DateTimeIntegerToString(m), DateTimeIntegerToString(d)]
    ensures |IntToString(y)| == 4
    ensures Number(IntToString(y)) == Some(y)
    ensures Number(DateTimeIntegerToString(m)) == Some(m) && Number(DateTimeIntegerToString(d)) == Some(d)
  {
    var ys, ms, ds := IntToString(y), DateTimeIntegerToString(m), DateTimeIntegerToString(d);
    NatToStringFourDigits(y);
    ParseDigitsOfNatToString(y);
    DigitsAvoid(ys);
    DigitsAvoid(ms);
    DigitsAvoid(ds);
    assert Split(ms + "-" + ds, '-') == [ms, ds] by {
      SplitConcat(ms, ds, '-');
      SplitWithoutSeparator(ms, '-');
      SplitWithoutSeparator(ds, '-');
    }
    assert Split(ys + "-" + (ms + "-" + ds), '-') == [ys, ms, ds] by {
      SplitConcat(ys, ms + "-" + ds, '-');
      SplitWithoutSeparator(ys, '-');
    }
    assert DateString(y, m, d) == ys + "-" + (ms + "-" + ds);
  }

  /** A date string as built in "date" mode parses back to its fields, or fails date validation. */
  lemma ParseDateString(y: int, m: int, d: int)
    requires 1000 <= y <= 9999 && 0 <= m < 100 && 0 <= d < 100
    ensures ParseStringToDateObject(DateString(y, m, d))
         == if ValidDate(y, m, d) then Ok(DateOnly(DateFields(y, m, d))) else Err(DateValidationFailed)
  {
    DateStringPieces(y, m, d);
    SplitWithoutSeparator(DateString(y, m, d), 'T');
  }

  /** The pieces of a built time string followed by any text. */
  lemma TimeStringPieces(h: int, mi: int, s: int, suffix: string)
    requires 0 <= h < 100 && 0 <= mi < 100 && 0 <= s < 100
    requires 'T' !in suffix
    ensures 'T' !in TimeString(h, mi, s) + suffix
    ensures FindTime(TimeString(h, mi, s) + suffix) == Some(0)
    ensures var t := TimeString(h, mi, s) + suffix;
            ParseDigits(t[0..2]) == h && ParseDigits(t[3..5]) == mi && ParseDigits(t[6..8]) == s
  {
    var hs, ms, ss := DateTimeIntegerToString(h), DateTimeIntegerToString(mi), DateTimeIntegerToString(s);
    var t := TimeString(h, mi, s) + suffix;
    DigitsAvoid(hs);
    DigitsAvoid(ms);
    DigitsAvoid(ss);
    assert t == hs + ":" + ms + ":" + ss + suffix;
    assert t[0..2] == hs && t[3..5] == ms && t[6..8] == ss;
    assert TimeAt(t, 0);
  }

  /** The parser on a text whose pieces are known. */
  lemma ParseOfPieces(v: string, dateParts: seq<string>, t: string, y: nat, m: nat, d: nat, h: nat, mi: nat, s: nat)
    requires Split(v, 'T') == [BeforeFirst(v, 'T'), t]
    requires Split(BeforeFirst(v, 'T'), '-') == dateParts
    requires |dateParts| == 3 && |dateParts[0]| == 4 && |dateParts[1]| == 2 && |dateParts[2]| == 2
    requires Number(dateParts[0]) == Some(y) && Number(dateParts[1]) == Some(m) && Number(dateParts[2]) == Some(d)
    requires TimeAt(t, 0) && ParseDigits(t[0..2]) == h && ParseDigits(t[3..5]) == mi && ParseDigits(t[6..8]) == s
    ensures ParseStringToDateObject(v)
         == match ValidateDateTime(y, m, d, h, mi, s)
            case Pass => Ok(DateAndTime(DateTimeFields(y, m, d, h, mi, s)))
            case Fail(e) => Err(e)
  {
    assert FindTime(t) == Some(0);
  }

  /**
   * A date-time string as built in "date_time" mode, followed by any text
   * without a `T` (such as the `Z` of `DateTimePIO.toString`), parses back to
   * its fields or fails validation, the date error first.
   */
  lemma ParseDateTimeString(y: int, m: int, d: int, h: int, mi: int, s: int, suffix: string)
    requires 1000 <= y <= 9999 && 0 <= m < 100 && 0 <= d < 100
    requires 0 <= h < 100 && 0 <= mi < 100 && 0 <= s < 100
    requires 'T' !in suffix
    ensures ParseStringToDateObject(DateString(y, m, d) + "T" + TimeString(h, mi, s) + suffix)
         == match ValidateDateTime(y, m, d, h, mi, s)
            case Pass => Ok(DateAndTime(DateTimeFields(y, m, d, h, mi, s)))
            case Fail(e) => Err(e)
  {
    var ds, t := DateString(y, m, d), TimeString(h, mi, s) + suffix;
    var v := DateString(y, m, d) + "T" + TimeString(h, mi, s) + suffix;
    DateStringPieces(y, m, d);
    TimeStringPieces(h, mi, s, suffix);
    assert Split(v, 'T') == [ds, t] by {
      SplitConcat(ds, t, 'T');
      SplitWithoutSeparator(ds, 'T');
      SplitWithoutSeparator(t, 'T');
      assert v == ds + "T" + t;
    }
    ParseOfPieces(v, Split(ds, '-'), t, y, m, d, h, mi, s);
  }

  /** The same without anything after the time. */
  lemma ParseDateTimeStringPlain(y: int, m: int, d: int, h: int, mi: int, s: int)
    requires 1000 <= y <= 9999 && 0 <= m < 100 && 0 <= d < 100
    requires 0 <= h < 100 && 0 <= mi < 100 && 0 <= s < 100
    ensures ParseStringToDateObject(DateString(y, m, d) + "T" + TimeString(h, mi, s))
         == match ValidateDateTime(y, m, d, h, mi, s)
            case Pass => Ok(DateAndTime(DateTimeFields(y, m, d, h, mi, s)))
            case Fail(e) => Err(e)
  {
    var v := DateString(y, m, d) + "T" + TimeString(h, mi, s);
    assert v + "" == v;
    ParseDateTimeString(y, m, d, h, mi, s, "");
  }

  /** With no `T`, or with two or more, only the date before the first `T` is read. */
  lemma ParseWithoutSingleT(s: string)
    requires |Split(s, 'T')| != 2
    ensures ParseStringToDateObject(s) == ParseStringToDateObject(BeforeFirst(s, 'T'))
  {
    SplitPiecesAvoidSeparator(s, 'T');
    SplitWithoutSeparator(BeforeFirst(s, 'T'), 'T');
  }

  /**
   * A second `T` after a complete date-time makes the parser drop the time:
   * the result is the date alone, with no error.
   */
  lemma SecondTDropsTime(y: int, m: int, d: int, h: int, mi: int, s: int)
    requires 1000 <= y <= 9999 && 0 <= m < 100 && 0 <= d < 100
    requires 0 <= h < 100 && 0 <= mi < 100 && 0 <= s < 100
    ensures ParseStringToDateObject(DateString(y, m, d) + "T" + TimeString(h, mi, s) + "T")
         == if ValidDate(y, m, d) then Ok(DateOnly(DateFields(y, m, d))) else Err(DateValidationFailed)
  {
    var ds, ts := DateString(y, m, d), TimeString(h, mi, s);
    var v := ds + "T" + ts + "T";
    DateStringPieces(y, m, d);
    TimeStringPieces(h, mi, s, "");
    assert ts + "" == ts;
    SplitConcat(ts, "", 'T');
    SplitConcat(ds, ts + "T" + "", 'T');
    assert v == ds + "T" + (ts + "T" + "");
    assert |Split(v, 'T')| >= 3;
    SplitWithoutSeparator(ds, 'T');
    assert BeforeFirst(v, 'T') == ds;
    ParseWithoutSingleT(v);
    ParseDateString(y, m, d);
  }

  // ---------------------------------------------- a year that is not a number

  /**
   * `validateDate` on JavaScript numbers, `None` standing for `NaN`: every
   * comparison with `NaN` is false, `NaN % 400` is not 0, and
   * `monthLength[NaN - 1]` is `undefined`, which no day is at most.
   */
  predicate ValidDateAsWritten(y: Option<int>, m: Option<int>, d: Option<int>)
  {
    var outOfRange := (y.Some? && (y.value < 1000 || y.value > 3000)) || (m.Some? && (m.value <= 0 || m.value > 12));
    if outOfRange then false
    else
      var table := MonthTable(y.Some? && IsLeapYear(y.value));
      m.Some? && d.Some? && d.value > 0 && d.value <= table[m.value - 1]
  }

  /** On numbers the as-written check is `ValidDate`. */
  lemma ValidDateAsWrittenOnNumbers(y: int, m: int, d: int)
    ensures ValidDateAsWritten(Some(y), Some(m), Some(d)) == ValidDate(y, m, d)
  {
  }

  /**
   * As written, a year that reads as `NaN` passes the range check, so
   * "abcd-01-01" would be accepted as a date with year `NaN`.
   */
  lemma NonNumericYearAcceptedAsWritten()
    ensures Number("abcd") == None && Number("01") == Some(1)
    ensures ValidDateAsWritten(Number("abcd"), Number("01"), Number("01"))
  {
    assert !IsDigit('a');
    assert ParseDigits("01") == ParseDigits("0") * 10 + 1;
  }

  /** The parser modelled here rejects any date whose year, month or day is not a number. */
  lemma NonNumericDateFieldRejected(s: string)
    requires HasDateShape(s)
    requires var dateParts := Split(BeforeFirst(s, 'T'), '-');
             Number(dateParts[0]).None? || Number(dateParts[1]).None? || Number(dateParts[2]).None?
    ensures ParseStringToDateObject(s) == Err(DateValidationFailed) || ParseStringToDateObject(s) == Err(NoTimeMatch)
  {
  }
}
