# NEMO utilities: time windows and request parameters, in Dafny

This project models the request and time-window helpers of NEMO's `NEMO/utilities.py` (NEMO is a
laboratory facility management web application) and proves properties of them. The helpers covered are:

- `extract_times` and `extract_dates`: turn the `start`/`end` parameters of an HTTP request into a
  localised, ordered pair. Failures come in a fixed order: missing start, missing end, invalid start,
  invalid end, end before start.
- `parse_start_and_end_date`: parses two free-text dates. It moves the end forward by one day less one
  second and does no ordering check.
- `get_month_timeframe`: the window of one calendar month, from the 1st at 00:00:00 to the last day at
  23:59:59.
- `month_list`: one localised datetime per month, from a starting month up to now, newest first.
- `beginning_of_the_day` and `end_of_the_day`: the two boundaries of a day.
- `format_datetime`: the English ordinal suffix of the day and the assembly of the formatted text.
- `quiet_int`, `parse_parameter_string` and `bootstrap_primary_color`.

Files and modules:

- `wrappers.dfy` (`Wrappers`): `Option` and `Result`. Errors are returned as values instead of raised
  as Python exceptions.
- `calendar.dfy` (`Calendar`): the parts of Python's `datetime` and `calendar` that the helpers rely on:
  - valid dates in years 1..9999 and the Gregorian leap-year rule;
  - `monthrange`, `toordinal` and `_days_before_year`;
  - the field-by-field comparison of naive datetimes;
  - `datetime + timedelta` for spans under one day, including its OverflowError.
- `zones.dfy` (`Zones`): a `Moment` is a Python `datetime`: its wall-clock fields plus an optional
  tzinfo. The module holds `localize`, the comparison Python applies to aware datetimes (compare the
  wall clocks when both have the same tzinfo, otherwise compare UTC instants) and `astimezone`.
- `text.dfy` (`Text`): three string operations:
  - `str.strip()`, with the whitespace set of Python's `str.isspace`;
  - `str.lstrip(c)`;
  - `str(n)` for a natural number, with its round trip.
- `request_parameters.dfy` (`RequestParameters`): `bootstrap_primary_color`, `quiet_int`,
  `parse_parameter_string`.
- `time_windows.dfy` (`TimeWindows`): the range extractors, `extract_date`, `parse_start_and_end_date`,
  `get_month_timeframe`, the day boundaries and `format_datetime`.
- `month_lists.dfy` (`MonthLists`): `month_list`. It includes dateutil's monthly `rrule` and the
  in-place `list.reverse()`.

Conventions:

- The ambient clock and the process time zone are parameters. "Now" is the `Moment` that
  `timezone.now()` returns, an aware UTC datetime. The current zone is a `TimeZone`.
- The outside parsers are function-typed parameters that return `None` where Python raises:
  - `float` and `datetime.utcfromtimestamp`;
  - `strptime(..., '%Y-%m-%d')`, which yields a valid calendar day;
  - dateutil's `parse`, which yields a naive or aware datetime;
  - `int()`;
  - the `strftime` calls for weekday, month, year and 12-hour clock.
- A time zone is a name plus a fixed UTC offset, strictly within one day as Python requires.
  Localisation therefore preserves order.

Where the code is easy to misread, the model follows the code:

- `parse_start_and_end_date` adds `timedelta(days=1, seconds=-1)`, which is 86399 seconds (line 34).
  So an end date parsed at midnight becomes 23:59:59 of that day, with microseconds unchanged. It does
  not become 23:59:59.999999.
- `month_list` takes no step of its own: it returns whatever `rrule(MONTHLY, dtstart=since, count=n)`
  produces (line 68). dateutil's rrule drops the microseconds of `dtstart` and skips months that lack
  its day of the month, so for a `since` on day 29, 30 or 31 the list has gaps. It also stops after
  year 9999 and yields nothing for a count of zero or less. The list's natural properties (exact
  length, element 0 is now's month, one month apart) hold only for a `since` on day 28 or earlier,
  and are proved for that case. That case includes the default, 1 November 2013.
- For a `since` on day 29, 30 or 31 the list can also run past now: rrule is still asked for the
  month count, and every skipped month pushes the last occurrence one month later. From 31 January
  2024 with now in March 2024, the list is 31 May, 31 March, 31 January, so its first entry lies two
  months after now (`MonthLists.MonthListRunsPastNow`).
- The month count is computed from the year and month of `timezone.now()`, which is UTC (line 67).
  It is not computed from local time.
- In `extract_times` and `extract_dates`, localising cannot fail in this model. So "invalid start" and
  "invalid end" come only from the parsers.

## Model

| member | source | states |
|---|---|---|
| `Calendar.DaysInMonth` | NEMO/utilities.py:80 | the `monthrange` day count: February has 29 days exactly in Gregorian leap years and 28 otherwise; April, June, September and November have 30; all other months 31 |
| `Calendar.NextDay` | NEMO/utilities.py:34 | the next day has ordinal one higher; there is none only after 9999-12-31 (Python's overflow) |
| `Calendar.PreviousDay` | NEMO/utilities.py:154 | the previous day has ordinal one lower; there is none only before 0001-01-01 |
| `Calendar.DayOrdinal` | NEMO/utilities.py:34 | Python's day count (`date.toordinal()`) behind `datetime + timedelta`: days before the year, plus days before the month in that year, plus the day |
| `Calendar.Before` | NEMO/utilities.py:113 | Python's comparison of naive datetimes, field by field from the year down to the microsecond |
| `Calendar.BeforeIffEarlier` | NEMO/utilities.py:113 | Python's field-by-field comparison of naive datetimes holds iff the first is earlier on the microsecond time line |
| `Calendar.DaysBeforeYearStep` | NEMO/utilities.py:80 | Python's closed-form count of days before a year grows by 366 over leap years and 365 over others |
| `Calendar.AddSeconds` | NEMO/utilities.py:34 | adding a span under one day moves the instant by exactly that span and keeps the microseconds; it fails exactly when it would leave years 1..9999 |
| `Zones.Localize` | NEMO/utilities.py:163-168 | `tz.localize(d)`: the wall clock is kept and the zone attached |
| `Zones.LocalizedInstant` | NEMO/utilities.py:163-168 | a localised datetime keeps its wall clock and stands for the UTC instant `offset` seconds earlier |
| `Zones.Earlier` | NEMO/utilities.py:113 | Python's `<` on two naive or two aware datetimes: with the same tzinfo it compares the wall fields, otherwise the UTC instants (also used at line 147) |
| `Zones.LocalizeAll` | NEMO/utilities.py:163-168 | localising a list keeps its length and every element's wall clock, and tags each with the zone |
| `Zones.EarlierIsUtcOrder` | NEMO/utilities.py:113 | Python's aware comparison (same tzinfo: wall fields; otherwise UTC) is exactly the order of the UTC instants |
| `Zones.LocalizePreservesOrder` | NEMO/utilities.py:163-168 | localising two naive datetimes into one zone preserves and reflects their order, both as datetimes and as UTC instants |
| `Zones.AsTimeZone` | NEMO/utilities.py:154 | `astimezone` keeps the UTC instant and the microseconds and tags the target zone; into the datetime's own zone it returns it unchanged. It fails (Python's OverflowError) exactly when the zone changes and either the UTC wall clock or the target wall clock leaves years 1..9999 |
| `Text.IsSpace` | NEMO/utilities.py:56 | the characters `str.isspace()` accepts, which `strip()` removes |
| `Text.Strip` | NEMO/utilities.py:56 | `strip()` is no longer than its input and neither starts nor ends with whitespace |
| `Text.StripIsSlice` | NEMO/utilities.py:56 | what `strip()` leaves is a slice of the input that begins after the leading whitespace; everything outside the slice is whitespace |
| `Text.StripIdempotent` | NEMO/utilities.py:56 | stripping a stripped string changes nothing |
| `Text.StripLeadingChar` | NEMO/utilities.py:160 | `lstrip('0')` returns a suffix; everything dropped is a `'0'` and the suffix does not start with one |
| `Text.DecimalString` | NEMO/utilities.py:160 | `str(day)`: decimal digits with no leading zero that read back as the number |
| `RequestParameters.BootstrapPrimaryColor` | NEMO/utilities.py:19-28 | a colour exists exactly for success, info, warning and danger, and is a `#rrggbb` hex colour |
| `RequestParameters.BootstrapColorsDistinct` | NEMO/utilities.py:19-28 | no two contextual classes share a colour |
| `RequestParameters.QuietInt` | NEMO/utilities.py:38-48 | returns the converted integer when conversion succeeds, the default otherwise; never fails |
| `RequestParameters.ParseParameterString` | NEMO/utilities.py:51-63 | a present key yields its stripped value. With `raiseOnError` it fails exactly when the key is absent or the stripped length exceeds the limit. Without it, it never fails and an absent key yields the default |
| `RequestParameters.ParsedParameterIsTrimmed` | NEMO/utilities.py:55-59 | a value returned for a present key has no surrounding whitespace, is its own strip and, with `raiseOnError`, is within the limit |
| `RequestParameters.LimitIgnoredWithoutRaise` | NEMO/utilities.py:57 | without `raiseOnError` the result does not depend on `maximumLength` |
| `TimeWindows.CheckedRange` | NEMO/utilities.py:89-116 | on success both keys are present, the pair is what the endpoint parser returned for them, and the end does not precede the start |
| `TimeWindows.CheckedRangeOutcome` | NEMO/utilities.py:89-116 | each error holds iff its own check is the first to fail: missing start, missing end, invalid start, invalid end. Once both endpoints parse, the call fails iff the end instant is before the start instant; a success is ordered in UTC |
| `TimeWindows.EqualEndpointsAccepted` | NEMO/utilities.py:113-116 | an end equal to the start is accepted |
| `TimeWindows.TimestampEndpoint` | NEMO/utilities.py:99-111 | an endpoint exists exactly when `float` and then `utcfromtimestamp` succeed; it carries the wall clock `utcfromtimestamp` returned, tagged with the chosen zone |
| `TimeWindows.ExtractTimes` | NEMO/utilities.py:84-116 | on success both endpoints are in the input time zone (the current zone when none is given) and start <= end on the wall clock |
| `TimeWindows.ExtractTimesOrder` | NEMO/utilities.py:99-116 | with both timestamps converted, the call fails iff the end datetime is before the start datetime, and the failure is "end precedes start"; otherwise it returns the two localised datetimes |
| `TimeWindows.ExtractDate` | NEMO/utilities.py:119-120 | defined exactly when the date parses; it is midnight of the parsed day in the current zone |
| `TimeWindows.ExtractDates` | NEMO/utilities.py:123-150 | on success both endpoints are local midnights in the current zone and the end date is not before the start date |
| `TimeWindows.ExtractDatesOrder` | NEMO/utilities.py:137-150 | with both dates parsed, the call fails iff the end date is before the start date, and the failure is "end precedes start"; otherwise it returns both midnights |
| `TimeWindows.MakeAware` | NEMO/utilities.py:32-33 | `make_aware` succeeds iff the datetime is naive, and then localises it |
| `TimeWindows.ParseStartAndEndDate` | NEMO/utilities.py:31-35 | errors come in this order: unparsable start, aware start, unparsable end, aware end. It succeeds iff both parse naive and the shift stays in range, with no ordering check; when both parse naive and the shift leaves year 9999 the error is `Overflow`. The start is localised unchanged. The end lies exactly 86399 s after the localised parsed end and keeps its microseconds; a midnight end becomes 23:59:59 of the same day |
| `TimeWindows.GetMonthTimeframe` | NEMO/utilities.py:74-81 | fails iff a non-empty date text does not parse. Otherwise, for the month of the parsed date or of now, it returns the 1st at 00:00:00.0 and the last day (`monthrange`) at 23:59:59.0, both local, first before last |
| `TimeWindows.MonthTimeframeCoversMonth` | NEMO/utilities.py:79-80 | the window spans the month's days less one second. One second after its end is the 1st of the next month, or Python's overflow after December 9999 |
| `TimeWindows.ReplaceTime` | NEMO/utilities.py:177-178 | `t.replace(hour, minute, second, microsecond, tzinfo=None)`, localised when asked: the date is kept, the time of day is the one given, and the zone follows the flag (also used at lines 183-184) |
| `TimeWindows.BeginningOfTheDay` | NEMO/utilities.py:175-178 | keeps the date, is not after any datetime of that date, and is local or naive as the flag says |
| `TimeWindows.EndOfTheDay` | NEMO/utilities.py:181-184 | keeps the date, is not before any datetime of that date, and is local or naive as the flag says |
| `TimeWindows.DayBoundaries` | NEMO/utilities.py:175-184 | beginning is 00:00:00.000000 and end is 23:59:59.999999. They bracket the input and lie one day less one microsecond apart. Each is idempotent |
| `TimeWindows.OrdinalSuffix` | NEMO/utilities.py:156-159 | for each day 1..31 the suffix is "th" iff the day is in 4..20 or 24..30, and otherwise "st" for 1, 21 and 31, "nd" for 2 and 22, "rd" for 3 and 23. The list index stays in range |
| `TimeWindows.OrdinalSuffixIsEnglish` | NEMO/utilities.py:156-159 | the day-of-month rule agrees with the general English ordinal rule (11th to 13th, else by last digit) |
| `TimeWindows.DayOfMonthTextDigits` | NEMO/utilities.py:155-160 | the day is written with one digit below 10 and two digits from 10 on, then its suffix |
| `TimeWindows.DayOfMonthText` | NEMO/utilities.py:160 | `str(day) + suffix`: the decimal day followed by its ordinal suffix (its properties are the two lemmas below) |
| `TimeWindows.DayOfMonthTextReadsBack` | NEMO/utilities.py:160 | the text is decimal digits that read back as the day, followed by the two-letter suffix |
| `TimeWindows.DayOfMonthTextExamples` | NEMO/utilities.py:155-160 | day 11 is "11th", 21 is "21st", 24 is "24th", 31 is "31st" |
| `TimeWindows.FormatParts` | NEMO/utilities.py:160 | the text is exactly its four parts in order: it is as long as they are together, and each is found again at its offset (weekday and month, the day with its suffix, the year part, the clock) |
| `TimeWindows.FormatLocal` | NEMO/utilities.py:160 | the local text is `FormatParts` of `strftime("%A, %B ")`, the day with its suffix, `strftime(", %Y @ ")` and the `lstrip('0')` of `strftime("%I:%M %p")`, which by `Text.StripLeadingChar` starts with no zero |
| `TimeWindows.FormatDatetime` | NEMO/utilities.py:153-160 | defined iff the conversion to the current zone stays in range; renders that local datetime, which is the same UTC instant |
| `MonthLists.MonthCount` | NEMO/utilities.py:67 | the month count is the difference of month indices plus one |
| `MonthLists.Occurrence` | NEMO/utilities.py:68 | an rrule occurrence lies in its month, on the start's day and time with microsecond 0 |
| `MonthLists.MonthlyOccurrences` | NEMO/utilities.py:68 | `rrule(MONTHLY, dtstart=start, count=count)` from a given month on: each month with the start's day adds one occurrence, other months are skipped, and it stops after `count` occurrences or after year 9999 (its properties are the lemmas below) |
| `MonthLists.OccurrencesShape` | NEMO/utilities.py:68 | rrule yields at most `count` datetimes on the start's day and time, in strictly increasing months, the first being the start's own month |
| `MonthLists.OccurrencesWithoutSkips` | NEMO/utilities.py:67-68 | for a start on day 28 or earlier no month is skipped: exactly `count` occurrences (unless year 9999 ends first), the i-th being i months after the start |
| `MonthLists.RecurrenceStep` | NEMO/utilities.py:68 | one month of the recurrence either adds its occurrence or is skipped, and the rest comes from the following month |
| `MonthLists.MonthlyRecurrence` | NEMO/utilities.py:68 | the month-by-month loop produces exactly the rrule occurrences |
| `MonthLists.Reversed` | NEMO/utilities.py:70 | reversal keeps the length and puts the element counted k from the end at position k |
| `MonthLists.Reverse` | NEMO/utilities.py:70 | the in-place `reverse()` leaves the array holding the reversal of its old contents |
| `MonthLists.MonthListOf` | NEMO/utilities.py:66-71 | `month_list` as a value: the rrule occurrences from `since` for the month count, localised, then reversed |
| `MonthLists.MonthListShape` | NEMO/utilities.py:66-71 | the list is newest first in strictly decreasing months, all local, on `since`'s day and time, at most the month count long, and ends with `since` |
| `MonthLists.MonthListWithoutSkips` | NEMO/utilities.py:66-71 | for a `since` on day 28 or earlier and not after now, the list is exactly `(now.year - since.year)*12 + (now.month - since.month) + 1` long, starts in now's month, and steps back one month at a time |
| `MonthLists.MonthListEntries` | NEMO/utilities.py:68-70 | entry `i` of the list is rrule occurrence `n - 1 - i`, localised into the current zone |
| `MonthLists.MonthListDescending` | NEMO/utilities.py:66-71 | each entry is strictly earlier than the one before it |
| `MonthLists.MonthListRunsPastNow` | NEMO/utilities.py:66-71 | from 31 January 2024 with now in March 2024 the list has 3 entries and the first is 31 May 2024, after now's month |
| `MonthLists.MonthListEpochLength` | NEMO/utilities.py:66-67 | from the default November 2013 epoch to March 2024 the list has 125 entries, from 2024-03-01 down to 2013-11-01 |
| `MonthLists.MonthList` | NEMO/utilities.py:66-71 | the method returns the localised rrule occurrences, reversed |

## Left out

- `send_mail` and `create_email_attachment` (lines 187-198): e-mail delivery and MIME/base64 encoding are library I/O.
- `resize_image` (lines 214-228): image decoding and encoding, and floating-point ratios.
- `get_task_image_filename` (lines 201-211): a database count query, `slugify` and the ambient `datetime.now()`.
- `naive_local_current_datetime` (lines 171-172) and every read of `timezone.now()`: the clock is a parameter. `month_list` reads the clock twice (line 67); the model reads it once.
- The internals of `float`, `datetime.utcfromtimestamp`, `strptime`, dateutil's `parse`, `int()` and `strftime` (weekday and month names, `%Y`, the 12-hour clock): each is an opaque function parameter.
- Daylight saving time and pytz's per-instant offsets: a zone is one fixed offset, so `localize`, `make_aware` and `astimezone` cannot hit an ambiguous or non-existent local time.
- The text of the exception messages: each exception is a constructor of an error datatype.
- Values that are not strings in the parameter maps (numbers, lists): parameters are `map<string, string>`.
- `Zones.Earlier`: comparing a naive with an aware datetime (Python's TypeError) is excluded by its precondition; the helpers only compare like with like.
- `TimeWindows.FormatDatetime`: requires an aware datetime, because `astimezone` on a naive one consults the operating system's local zone.
- `TimeWindows.FormatDatetime`: takes the day from the local datetime's field instead of `int(strftime("%d"))`.
- `MonthLists.MonthList`: `since` is naive. An aware `since` would make `localize` raise.
- `TimeWindows.ExtractTimesOrder`: states the ordering for the converted datetimes, not the raw timestamps, because `utcfromtimestamp` is opaque and nothing says it is monotone.
