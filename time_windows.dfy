/**
 * The time-window helpers of NEMO's utilities: turning untrusted request input
 * into validated, localised (start, end) pairs, the window of one calendar month,
 * the boundaries of a day and the English ordinal of a day of the month.
 *
 * Outside parsers (`float`, `datetime.utcfromtimestamp`, `strptime`, dateutil's
 * `parse`, `strftime`) are parameters: functions that return None where Python
 * raises.
 */
module TimeWindows {
  import opened Wrappers
  import opened Calendar
  import opened Zones
  import opened Text

  /** A (start, end) pair as the utilities return it. */
  datatype TimeRange = TimeRange(start: Moment, end: Moment)

  /** The five exceptions of the range extractors, in the order they are checked. */
  datatype RangeError = MissingStart | MissingEnd | InvalidStart | InvalidEnd | EndPrecedesStart

  /** Failures of parsing free text and of the date arithmetic that follows it. */
  datatype DateError =
    | Unparsable(text: string)  // dateutil's parser could not read the text
    | AlreadyAware              // make_aware was handed an aware datetime
    | Overflow                  // the result left years 1..9999

  ghost predicate AwareEndpoints(endpoint: string -> Option<Moment>) {
    forall s :: endpoint(s).Some? ==> IsAware(endpoint(s).value)
  }

  /**
   * The validation chain shared by `extract_times` and `extract_dates`: missing
   * start, missing end, invalid start, invalid end, end before start. `endpoint`
   * turns one parameter into an aware datetime or fails.
   */
  function CheckedRange(parameters: map<string, string>, endpoint: string -> Option<Moment>)
    : (r: Result<TimeRange, RangeError>)
    requires AwareEndpoints(endpoint)
    ensures r.Success? ==>
      && "start" in parameters && "end" in parameters
      && endpoint(parameters["start"]) == Some(r.value.start)
      && endpoint(parameters["end"]) == Some(r.value.end)
      && !Earlier(r.value.end, r.value.start)
  {
    if "start" !in parameters then Failure(MissingStart)
    else if "end" !in parameters then Failure(MissingEnd)
    else
      match endpoint(parameters["start"])
      case None => Failure(InvalidStart)
      case Some(start) =>
        match endpoint(parameters["end"])
        case None => Failure(InvalidEnd)
        case Some(end) =>
          if Earlier(end, start) then Failure(EndPrecedesStart)
          else Success(TimeRange(start, end))
  }

  /**
   * Error precedence, each case an if-and-only-if: the first failing check decides
   * the error, and once both endpoints parse the call fails exactly when the end
   * instant precedes the start instant; otherwise the range is ordered.
   */
  lemma CheckedRangeOutcome(parameters: map<string, string>, endpoint: string -> Option<Moment>)
    requires AwareEndpoints(endpoint)
    ensures var r := CheckedRange(parameters, endpoint);
      && (r == Failure(MissingStart) <==> "start" !in parameters)
      && (r == Failure(MissingEnd) <==> "start" in parameters && "end" !in parameters)
      && (r == Failure(InvalidStart) <==>
            "start" in parameters && "end" in parameters && endpoint(parameters["start"]).None?)
      && (r == Failure(InvalidEnd) <==>
            "start" in parameters && "end" in parameters && endpoint(parameters["start"]).Some?
            && endpoint(parameters["end"]).None?)
      && (r == Failure(EndPrecedesStart) <==>
            "start" in parameters && "end" in parameters && endpoint(parameters["start"]).Some?
            && endpoint(parameters["end"]).Some?
            && UtcMicros(endpoint(parameters["end"]).value) < UtcMicros(endpoint(parameters["start"]).value))
      && (r.Success? ==> UtcMicros(r.value.start) <= UtcMicros(r.value.end))
  {
    if "start" in parameters && "end" in parameters
       && endpoint(parameters["start"]).Some? && endpoint(parameters["end"]).Some? {
      EarlierIsUtcOrder(endpoint(parameters["end"]).value, endpoint(parameters["start"]).value);
    }
  }

  /** A start equal to the end is accepted. */
  lemma EqualEndpointsAccepted(parameters: map<string, string>, endpoint: string -> Option<Moment>)
    requires AwareEndpoints(endpoint)
    requires "start" in parameters && "end" in parameters
    requires endpoint(parameters["start"]).Some?
    requires endpoint(parameters["end"]) == endpoint(parameters["start"])
    ensures CheckedRange(parameters, endpoint).Success?
  {
    var m := endpoint(parameters["start"]).value;
    EarlierIsUtcOrder(m, m);
  }

  /** One `extract_times` endpoint: `float`, then `utcfromtimestamp`, then `localize`. */
  function TimestampEndpoint(text: string, toFloat: string -> Option<real>,
                             fromTimestamp: real -> Option<Naive>, tz: TimeZone): (m: Option<Moment>)
    ensures m.Some? <==> toFloat(text).Some? && fromTimestamp(toFloat(text).value).Some?
    ensures m.Some? ==> m.value.wall == fromTimestamp(toFloat(text).value).value && m.value.zone == Some(tz)
  {
    match toFloat(text)
    case None => None
    case Some(x) =>
      match fromTimestamp(x)
      case None => None
      case Some(t) => Some(Localize(t, tz))
  }

  /**
   * `extract_times`: both endpoints are UNIX timestamps read as UTC wall clocks and
   * localised into `inputTimezone`, or the current zone when none is given.
   */
  function ExtractTimes(parameters: map<string, string>, toFloat: string -> Option<real>,
                        fromTimestamp: real -> Option<Naive>, currentZone: TimeZone,
                        inputTimezone: Option<TimeZone> := None): (r: Result<TimeRange, RangeError>)
    ensures r.Success? ==>
      && r.value.start.zone == Some(inputTimezone.GetOr(currentZone))
      && r.value.end.zone == Some(inputTimezone.GetOr(currentZone))
      && NotAfter(r.value.start.wall, r.value.end.wall)
  {
    CheckedRange(parameters, s => TimestampEndpoint(s, toFloat, fromTimestamp, inputTimezone.GetOr(currentZone)))
  }

  /**
   * When both timestamps convert, `extract_times` fails exactly when the converted
   * end comes before the converted start, and otherwise returns them localised.
   */
  lemma ExtractTimesOrder(parameters: map<string, string>, toFloat: string -> Option<real>,
                          fromTimestamp: real -> Option<Naive>, currentZone: TimeZone,
                          inputTimezone: Option<TimeZone>, start: Naive, end: Naive)
    requires "start" in parameters && "end" in parameters
    requires toFloat(parameters["start"]).Some? && fromTimestamp(toFloat(parameters["start"]).value) == Some(start)
    requires toFloat(parameters["end"]).Some? && fromTimestamp(toFloat(parameters["end"]).value) == Some(end)
    ensures var r := ExtractTimes(parameters, toFloat, fromTimestamp, currentZone, inputTimezone);
      var tz := inputTimezone.GetOr(currentZone);
      && (r.Failure? <==> Before(end, start))
      && (r.Failure? ==> r.error == EndPrecedesStart)
      && (r.Success? ==> r.value == TimeRange(Localize(start, tz), Localize(end, tz)))
  {
    LocalizePreservesOrder(end, start, inputTimezone.GetOr(currentZone));
  }

  function Midnight(d: CalendarDay): (t: Naive)
    ensures DateOf(t) == d && t.hour == 0 && t.minute == 0 && t.second == 0 && t.microsecond == 0
  {
    DateTime(d.year, d.month, d.day, 0, 0, 0, 0)
  }

  /**
   * `extract_date`: `strptime(date, '%Y-%m-%d')` gives midnight of the parsed day,
   * which is then localised into the current zone.
   */
  function ExtractDate(date: string, strptimeDate: string -> Option<CalendarDay>, currentZone: TimeZone)
    : (m: Option<Moment>)
    ensures m.Some? <==> strptimeDate(date).Some?
    ensures m.Some? ==> m.value.wall == Midnight(strptimeDate(date).value) && m.value.zone == Some(currentZone)
  {
    match strptimeDate(date)
    case None => None
    case Some(d) => Some(Localize(Midnight(d), currentZone))
  }

  /** `extract_dates`: the validation chain over `YYYY-MM-DD` endpoints at local midnight. */
  function ExtractDates(parameters: map<string, string>, strptimeDate: string -> Option<CalendarDay>,
                        currentZone: TimeZone): (r: Result<TimeRange, RangeError>)
    ensures r.Success? ==>
      && r.value.start.zone == Some(currentZone) && r.value.end.zone == Some(currentZone)
      && r.value.start.wall == Midnight(DateOf(r.value.start.wall))
      && r.value.end.wall == Midnight(DateOf(r.value.end.wall))
      && !DateBefore(DateOf(r.value.end.wall), DateOf(r.value.start.wall))
  {
    CheckedRange(parameters, s => ExtractDate(s, strptimeDate, currentZone))
  }

  /** When both dates parse, `extract_dates` fails exactly when the end date is before the start date. */
  lemma ExtractDatesOrder(parameters: map<string, string>, strptimeDate: string -> Option<CalendarDay>,
                          currentZone: TimeZone, start: CalendarDay, end: CalendarDay)
    requires "start" in parameters && "end" in parameters
    requires strptimeDate(parameters["start"]) == Some(start)
    requires strptimeDate(parameters["end"]) == Some(end)
    ensures var r := ExtractDates(parameters, strptimeDate, currentZone);
      && (r.Failure? <==> DateBefore(end, start))
      && (r.Failure? ==> r.error == EndPrecedesStart)
      && (r.Success? ==> r.value == TimeRange(Localize(Midnight(start), currentZone), Localize(Midnight(end), currentZone)))
  {
  }

  /** `timedelta(days=1, seconds=-1)`, normalised by Python to 86399 seconds. */
  const EndOfDayShift: int := SecondsPerDay - 1

  /** Django's `make_aware` with a pytz zone: localise a naive datetime; an aware one is a ValueError. */
  function MakeAware(m: Moment, tz: TimeZone): (r: Result<Moment, DateError>)
    ensures r.Success? <==> !IsAware(m)
    ensures r.Success? ==> r.value == Localize(m.wall, tz)
    ensures r.Failure? ==> r.error == AlreadyAware
  {
    if IsAware(m) then Failure(AlreadyAware) else Success(Localize(m.wall, tz))
  }

  /**
   * `parse_start_and_end_date`: both texts parsed and made aware in the current
   * zone, then the end moved forward by one day less one second. No ordering
   * check is made.
   */
  method ParseStartAndEndDate(start: string, end: string, parse: string -> Option<Moment>,
                              currentZone: TimeZone) returns (r: Result<TimeRange, DateError>)
    ensures parse(start).None? ==> r == Failure(Unparsable(start))
    ensures parse(start).Some? && IsAware(parse(start).value) ==> r == Failure(AlreadyAware)
    ensures parse(start).Some? && !IsAware(parse(start).value) ==>
      && (parse(end).None? ==> r == Failure(Unparsable(end)))
      && (parse(end).Some? && IsAware(parse(end).value) ==> r == Failure(AlreadyAware))
    ensures (&& parse(start).Some? && !IsAware(parse(start).value)
             && parse(end).Some? && !IsAware(parse(end).value)
             && AddSeconds(parse(end).value.wall, EndOfDayShift).None?) ==> r == Failure(Overflow)
    ensures r.Success? <==>
      && parse(start).Some? && !IsAware(parse(start).value)
      && parse(end).Some? && !IsAware(parse(end).value)
      && AddSeconds(parse(end).value.wall, EndOfDayShift).Some?
    ensures r.Success? ==>
      && r.value.start == Localize(parse(start).value.wall, currentZone)
      && r.value.end.zone == Some(currentZone)
      && UtcMicros(r.value.end) == UtcMicros(Localize(parse(end).value.wall, currentZone)) + EndOfDayShift * MicrosPerSecond
      && r.value.end.wall.microsecond == parse(end).value.wall.microsecond
    ensures r.Success? && SecondsOfDay(parse(end).value.wall) == 0 ==>
      && DateOf(r.value.end.wall) == DateOf(parse(end).value.wall)
      && r.value.end.wall.hour == 23 && r.value.end.wall.minute == 59 && r.value.end.wall.second == 59
  {
    var parsedStart := parse(start);
    if parsedStart.None? {
      return Failure(Unparsable(start));
    }
    var startMoment := MakeAware(parsedStart.value, currentZone);
    if startMoment.Failure? {
      return Failure(startMoment.error);
    }
    var parsedEnd := parse(end);
    if parsedEnd.None? {
      return Failure(Unparsable(end));
    }
    var endMoment := MakeAware(parsedEnd.value, currentZone);
    if endMoment.Failure? {
      return Failure(endMoment.error);
    }
    var shifted := AddSeconds(endMoment.value.wall, EndOfDayShift);
    if shifted.None? {
      return Failure(Overflow);
    }
    var endOfDay := Moment(shifted.value, endMoment.value.zone);
    return Success(TimeRange(startMoment.value, endOfDay));
  }

  /**
   * `get_month_timeframe`: from the first instant of the month of the parsed date
   * (or of now, when no date text is given) to 23:59:59 of its last day.
   */
  function GetMonthTimeframe(date: Option<string>, parse: string -> Option<Moment>, now: Moment,
                             currentZone: TimeZone): (r: Result<TimeRange, DateError>)
    ensures r.Failure? <==> date.Some? && date.value != "" && parse(date.value).None?
    ensures r.Success? ==>
      var reference := if date.Some? && date.value != "" then parse(date.value).value.wall else now.wall;
      var first, last := r.value.start.wall, r.value.end.wall;
      && first == DateTime(reference.year, reference.month, 1, 0, 0, 0, 0)
      && last == DateTime(reference.year, reference.month, DaysInMonth(reference.year, reference.month), 23, 59, 59, 0)
      && r.value.start.zone == Some(currentZone) && r.value.end.zone == Some(currentZone)
      && Earlier(r.value.start, r.value.end)
  {
    var reference :=
      if date.Some? && date.value != "" then
        match parse(date.value)
        case None => Failure(Unparsable(date.value))
        case Some(m) => Success(m)
      else Success(now);
    match reference
    case Failure(e) => Failure(e)
    case Success(start) =>
      var y, m := start.wall.year, start.wall.month;
      Success(TimeRange(Localize(DateTime(y, m, 1, 0, 0, 0, 0), currentZone),
                        Localize(DateTime(y, m, DaysInMonth(y, m), 23, 59, 59, 0), currentZone)))
  }

  /**
   * The month window spans the whole month less its final second, and one second
   * after its end is the first instant of the next month (or Python's overflow
   * after December 9999).
   */
  lemma MonthTimeframeCoversMonth(year: int, month: int)
    requires MinYear <= year <= MaxYear && 1 <= month <= 12
    ensures var first := DateTime(year, month, 1, 0, 0, 0, 0);
      var last := DateTime(year, month, DaysInMonth(year, month), 23, 59, 59, 0);
      && ValidDateTime(first) && ValidDateTime(last)
      && Micros(last) - Micros(first) == (DaysInMonth(year, month) * SecondsPerDay - 1) * MicrosPerSecond
      && AddSeconds(last, 1) ==
           if month < 12 then Some(DateTime(year, month + 1, 1, 0, 0, 0, 0))
           else if year < MaxYear then Some(DateTime(year + 1, 1, 1, 0, 0, 0, 0))
           else None
  {
    var last: Naive := DateTime(year, month, DaysInMonth(year, month), 23, 59, 59, 0);
    assert SecondsOfDay(last) + 1 == SecondsPerDay;
    var next := NextDay(DateOf(last));
    if month < 12 {
      assert next == Some(Date(year, month + 1, 1));
      assert At(next.value, 0, 0) == DateTime(year, month + 1, 1, 0, 0, 0, 0);
    } else if year < MaxYear {
      assert next == Some(Date(year + 1, 1, 1));
      assert At(next.value, 0, 0) == DateTime(year + 1, 1, 1, 0, 0, 0, 0);
    } else {
      assert next == None;
    }
  }

  /** `t.replace(hour=h, minute=mi, second=s, microsecond=us, tzinfo=None)`, then localised when asked. */
  function ReplaceTime(t: Moment, hour: int, minute: int, second: int, microsecond: int,
                       inLocalTimezone: bool, currentZone: TimeZone): (r: Moment)
    requires 0 <= hour < 24 && 0 <= minute < 60 && 0 <= second < 60 && 0 <= microsecond < MicrosPerSecond
    ensures DateOf(r.wall) == DateOf(t.wall)
    ensures SecondsOfDay(r.wall) == hour * 3600 + minute * 60 + second && r.wall.microsecond == microsecond
    ensures r.zone == if inLocalTimezone then Some(currentZone) else None
  {
    var wall := DateTime(t.wall.year, t.wall.month, t.wall.day, hour, minute, second, microsecond);
    if inLocalTimezone then Localize(wall, currentZone) else Moment(wall, None)
  }

  /** `beginning_of_the_day`: 00:00:00.000000 of the same calendar day. */
  function BeginningOfTheDay(t: Moment, currentZone: TimeZone, inLocalTimezone: bool := true): (r: Moment)
    ensures DateOf(r.wall) == DateOf(t.wall)
    ensures forall u: Naive :: DateOf(u) == DateOf(t.wall) ==> NotAfter(r.wall, u)
    ensures r.zone == if inLocalTimezone then Some(currentZone) else None
  {
    ReplaceTime(t, 0, 0, 0, 0, inLocalTimezone, currentZone)
  }

  /** `end_of_the_day`: 23:59:59.999999 of the same calendar day. */
  function EndOfTheDay(t: Moment, currentZone: TimeZone, inLocalTimezone: bool := true): (r: Moment)
    ensures DateOf(r.wall) == DateOf(t.wall)
    ensures forall u: Naive :: DateOf(u) == DateOf(t.wall) ==> NotAfter(u, r.wall)
    ensures r.zone == if inLocalTimezone then Some(currentZone) else None
  {
    ReplaceTime(t, 23, 59, 59, 999999, inLocalTimezone, currentZone)
  }

  /**
   * The two boundaries bracket `t` and each other, a day apart less one
   * microsecond, and applying either again changes nothing.
   */
  lemma DayBoundaries(t: Moment, currentZone: TimeZone, inLocalTimezone: bool)
    ensures var b := BeginningOfTheDay(t, currentZone, inLocalTimezone);
      var e := EndOfTheDay(t, currentZone, inLocalTimezone);
      && b.wall.hour == 0 && b.wall.minute == 0 && b.wall.second == 0 && b.wall.microsecond == 0
      && e.wall.hour == 23 && e.wall.minute == 59 && e.wall.second == 59 && e.wall.microsecond == 999999
      && NotAfter(b.wall, t.wall) && NotAfter(t.wall, e.wall)
      && Micros(e.wall) - Micros(b.wall) == SecondsPerDay * MicrosPerSecond - 1
      && BeginningOfTheDay(b, currentZone, inLocalTimezone) == b
      && EndOfTheDay(e, currentZone, inLocalTimezone) == e
  {
  }

  /** The ordinal suffix `format_datetime` puts after the day of the month. */
  function OrdinalSuffix(day: int): (suffix: string)
    requires 1 <= day <= 31
    ensures suffix == "th" <==> 4 <= day <= 20 || 24 <= day <= 30
    ensures suffix == "st" <==> day == 1 || day == 21 || day == 31
    ensures suffix == "nd" <==> day == 2 || day == 22
    ensures suffix == "rd" <==> day == 3 || day == 23
  {
    if 4 <= day <= 20 || 24 <= day <= 30 then "th"
    else ["st", "nd", "rd"][day % 10 - 1]
  }

  /** The general English rule: 11th-13th of every hundred, else by the last digit. */
  function EnglishOrdinalSuffix(n: nat): string {
    if 11 <= n % 100 <= 13 then "th"
    else if n % 10 == 1 then "st"
    else if n % 10 == 2 then "nd"
    else if n % 10 == 3 then "rd"
    else "th"
  }

  /** The day-of-month special case agrees with the general English rule on 1..31. */
  lemma OrdinalSuffixIsEnglish(day: int)
    requires 1 <= day <= 31
    ensures OrdinalSuffix(day) == EnglishOrdinalSuffix(day)
  {
  }

  /** `str(day) + suffix`, the day as `format_datetime` renders it. */
  function DayOfMonthText(day: int): string
    requires 1 <= day <= 31
  {
    DecimalString(day) + OrdinalSuffix(day)
  }

  /** The text is decimal digits that read back as the day, followed by the two-letter suffix. */
  lemma DayOfMonthTextReadsBack(day: int)
    requires 1 <= day <= 31
    ensures var text := DayOfMonthText(day);
      && |text| >= 3 && text[|text| - 2..] == OrdinalSuffix(day)
      && (forall k :: 0 <= k < |text| - 2 ==> IsDigit(text[k]))
      && DecimalValue(text[..|text| - 2]) == day
  {
    var text := DayOfMonthText(day);
    assert text[..|text| - 2] == DecimalString(day);
  }

  /** The day is written with one digit below 10 and two from 10 on, then its suffix. */
  lemma DayOfMonthTextDigits(day: int)
    requires 1 <= day <= 31
    ensures day < 10 ==> DayOfMonthText(day) == [DigitChar(day)] + OrdinalSuffix(day)
    ensures day >= 10 ==> DayOfMonthText(day) == [DigitChar(day / 10), DigitChar(day % 10)] + OrdinalSuffix(day)
  {
    if day >= 10 {
      assert DecimalString(day / 10) == [DigitChar(day / 10)];
    }
  }

  /** Some days as `format_datetime` renders them. */
  lemma DayOfMonthTextExamples()
    ensures DayOfMonthText(11) == "11th" && DayOfMonthText(21) == "21st"
    ensures DayOfMonthText(24) == "24th" && DayOfMonthText(31) == "31st"
  {
    DayOfMonthTextDigits(11);
    DayOfMonthTextDigits(21);
    DayOfMonthTextDigits(24);
    DayOfMonthTextDigits(31);
  }

  /**
   * The layout of `format_datetime`'s text: weekday and month, the day with its
   * suffix, the year part and the clock, in that order, each found again at its
   * offset.
   */
  function FormatParts(head: string, day: string, middle: string, clock: string): (text: string)
    ensures |text| == |head| + |day| + |middle| + |clock|
    ensures text[..|head|] == head
    ensures text[|head|..|head| + |day|] == day
    ensures text[|head| + |day|..|head| + |day| + |middle|] == middle
    ensures text[|head| + |day| + |middle|..] == clock
  {
    var text := head + day + (middle + clock);
    assert text == head + (day + (middle + clock));
    assert (day + (middle + clock))[..|day|] == day;
    assert text[|head| + |day|..] == middle + clock;
    text
  }

  /**
   * The text `format_datetime` builds from a local wall clock: "weekday, month "
   * + day with its suffix + ", year @ " + the 12-hour clock without a leading zero.
   * The `strftime` parts are a parameter.
   */
  function FormatLocal(local: Naive, strftime: (Naive, string) -> string): string {
    FormatParts(strftime(local, "%A, %B "), DayOfMonthText(local.day),
                strftime(local, ", %Y @ "), StripLeadingChar(strftime(local, "%I:%M %p"), '0'))
  }

  /**
   * `format_datetime`: the moment converted to the current zone and rendered; a
   * conversion past year 9999 is None.
   */
  function FormatDatetime(universalTime: Moment, currentZone: TimeZone, strftime: (Naive, string) -> string)
    : (r: Option<string>)
    requires IsAware(universalTime)
    ensures r.Some? <==> AsTimeZone(universalTime, currentZone).Some?
    ensures r.Some? ==>
      var local := AsTimeZone(universalTime, currentZone).value;
      && r.value == FormatLocal(local.wall, strftime)
      && UtcMicros(local) == UtcMicros(universalTime) && local.zone == Some(currentZone)
  {
    match AsTimeZone(universalTime, currentZone)
    case None => None
    case Some(local) => Some(FormatLocal(local.wall, strftime))
  }
}
