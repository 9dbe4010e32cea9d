/**
 * `month_list` of NEMO's utilities: one localised datetime per calendar month from a
 * starting month up to the month of "now", newest first. The months come from
 * dateutil's `rrule(MONTHLY, dtstart=since, count=...)`, which is modelled here as
 * it behaves: it keeps the day and time of `dtstart` but drops its microseconds,
 * skips months that lack that day, and stops after year 9999.
 */
module MonthLists {
  import opened Wrappers
  import opened Calendar
  import opened Zones

  /** The default `since`: 1 November 2013. */
  const MonthListEpoch: Naive := DateTime(2013, 11, 1, 0, 0, 0, 0)

  /** Months since year 0, so that consecutive calendar months differ by one. */
  function MonthIndex(year: int, month: int): int {
    year * 12 + month - 1
  }

  function MonthOf(t: DateTime): int {
    MonthIndex(t.year, t.month)
  }

  /** The month count `month_list` asks `rrule` for: the months from `since` to `now`, both included. */
  function MonthCount(since: DateTime, now: DateTime): (n: int)
    ensures n == MonthOf(now) - MonthOf(since) + 1
  {
    (now.year - since.year) * 12 + (now.month - since.month) + 1
  }

  /** The datetime `rrule` yields for `start` in a month: its day and time, microsecond 0. */
  function Occurrence(start: Naive, year: int, month: int): (t: Naive)
    requires MinYear <= year <= MaxYear && 1 <= month <= 12 && start.day <= DaysInMonth(year, month)
    ensures MonthOf(t) == MonthIndex(year, month)
    ensures SameDayAndTime(t, start)
  {
    DateTime(year, month, start.day, start.hour, start.minute, start.second, 0)
  }

  /** `t` falls on the day of the month and time of day of `start`, with no microseconds. */
  predicate SameDayAndTime(t: DateTime, start: DateTime) {
    t.day == start.day && t.hour == start.hour && t.minute == start.minute
    && t.second == start.second && t.microsecond == 0
  }

  /** The months still available before `rrule` runs past year 9999. */
  function MonthsLeft(year: int, month: int): int {
    MonthIndex(MaxYear, 12) - MonthIndex(year, month) + 1
  }

  /**
   * The first `count` occurrences of `start` from month (`year`, `month`) on, as
   * `rrule(MONTHLY, ...)` yields them.
   */
  function MonthlyOccurrences(start: Naive, year: int, month: int, count: int): seq<Naive>
    requires MinYear <= year && 1 <= month <= 12
    decreases MaxYear + 1 - year, 12 - month
  {
    if count <= 0 || year > MaxYear then []
    else
      var nextYear := if month == 12 then year + 1 else year;
      var nextMonth := if month == 12 then 1 else month + 1;
      if start.day <= DaysInMonth(year, month) then
        [Occurrence(start, year, month)] + MonthlyOccurrences(start, nextYear, nextMonth, count - 1)
      else
        MonthlyOccurrences(start, nextYear, nextMonth, count)
  }

  /**
   * What `rrule` yields, whatever the day of `start`: at most `count` datetimes,
   * in strictly increasing months from (`year`, `month`) on, all on `start`'s day
   * and time; the first is `start`'s own month when that month has the day.
   */
  lemma {:induction false} OccurrencesShape(start: Naive, year: int, month: int, count: int)
    requires MinYear <= year && 1 <= month <= 12
    ensures var occ := MonthlyOccurrences(start, year, month, count);
      && |occ| <= (if count < 0 then 0 else count)
      && (forall i :: 0 <= i < |occ| ==> SameDayAndTime(occ[i], start) && MonthIndex(year, month) <= MonthOf(occ[i]))
      && (forall i, j :: 0 <= i < j < |occ| ==> MonthOf(occ[i]) < MonthOf(occ[j]))
      && (count > 0 && year <= MaxYear && start.day <= DaysInMonth(year, month) ==>
            occ != [] && occ[0] == Occurrence(start, year, month))
    decreases MaxYear + 1 - year, 12 - month
  {
    if count > 0 && year <= MaxYear {
      var nextYear := if month == 12 then year + 1 else year;
      var nextMonth := if month == 12 then 1 else month + 1;
      if start.day <= DaysInMonth(year, month) {
        OccurrencesShape(start, nextYear, nextMonth, count - 1);
      } else {
        OccurrencesShape(start, nextYear, nextMonth, count);
      }
    }
  }

  /**
   * When `start`'s day exists in every month (day 28 or earlier) no month is
   * skipped: the i-th occurrence is i months after the first, and `rrule` yields
   * `count` of them unless year 9999 ends first.
   */
  lemma {:induction false} OccurrencesWithoutSkips(start: Naive, year: int, month: int, count: int)
    requires MinYear <= year && 1 <= month <= 12 && start.day <= 28
    requires MonthIndex(year, month) <= MonthIndex(MaxYear, 12) + 1
    ensures var occ := MonthlyOccurrences(start, year, month, count);
      && |occ| == (if count <= 0 then 0 else if count < MonthsLeft(year, month) then count else MonthsLeft(year, month))
      && forall i :: 0 <= i < |occ| ==> MonthOf(occ[i]) == MonthIndex(year, month) + i
    decreases MaxYear + 1 - year, 12 - month
  {
    if count > 0 && year <= MaxYear {
      var nextYear := if month == 12 then year + 1 else year;
      var nextMonth := if month == 12 then 1 else month + 1;
      OccurrencesWithoutSkips(start, nextYear, nextMonth, count - 1);
    }
  }

  /** `list.reverse()` as a value: the element at `k` comes from position `|s| - 1 - k`. */
  function Reversed<T>(s: seq<T>): (r: seq<T>)
    ensures |r| == |s|
    ensures forall k :: 0 <= k < |s| ==> r[k] == s[|s| - 1 - k]
  {
    if s == [] then [] else Reversed(s[1..]) + [s[0]]
  }

  /** `list.reverse()`: reverses the array in place. */
  method Reverse<T>(a: array<T>)
    modifies a
    ensures a[..] == Reversed(old(a[..]))
  {
    var n := a.Length;
    var i := 0;
    while i < n / 2
      invariant 0 <= i <= n / 2
      invariant forall k :: 0 <= k < i ==> a[k] == old(a[n - 1 - k]) && a[n - 1 - k] == old(a[k])
      invariant forall k :: i <= k < n - i ==> a[k] == old(a[k])
    {
      a[i], a[n - 1 - i] := a[n - 1 - i], a[i];
      i := i + 1;
    }
  }

  /** What `month_list(since)` returns when the clock reads `now`, as a value. */
  function MonthListOf(since: Naive, now: Moment, currentZone: TimeZone): seq<Moment> {
    Reversed(LocalizeAll(MonthlyOccurrences(since, since.year, since.month, MonthCount(since, now.wall)), currentZone))
  }

  /** Entry `i` of the month list is occurrence `n - 1 - i`, localised into the current zone. */
  lemma MonthListEntries(since: Naive, now: Moment, currentZone: TimeZone)
    ensures var occ := MonthlyOccurrences(since, since.year, since.month, MonthCount(since, now.wall));
      var months := MonthListOf(since, now, currentZone);
      && |months| == |occ|
      && forall i :: 0 <= i < |months| ==>
           months[i].wall == occ[|occ| - 1 - i] && months[i].zone == Some(currentZone)
  {
    var occ := MonthlyOccurrences(since, since.year, since.month, MonthCount(since, now.wall));
    var localized := LocalizeAll(occ, currentZone);
    assert forall i :: 0 <= i < |occ| ==> Reversed(localized)[i] == localized[|occ| - 1 - i];
  }

  /**
   * The shape of the month list: newest first in strictly decreasing months,
   * localised into the current zone, on `since`'s day and time, at most the month
   * count long and ending with `since` itself (microseconds dropped).
   */
  lemma MonthListShape(since: Naive, now: Moment, currentZone: TimeZone)
    ensures var months := MonthListOf(since, now, currentZone);
      var count := MonthCount(since, now.wall);
      && |months| <= (if count < 0 then 0 else count)
      && (forall i :: 0 <= i < |months| ==> months[i].zone == Some(currentZone) && SameDayAndTime(months[i].wall, since))
      && (forall i, j :: 0 <= i < j < |months| ==> MonthOf(months[j].wall) < MonthOf(months[i].wall))
      && (count >= 1 ==> months != [] && months[|months| - 1].wall == since.(microsecond := 0))
  {
    var count := MonthCount(since, now.wall);
    var occ := MonthlyOccurrences(since, since.year, since.month, count);
    var months := MonthListOf(since, now, currentZone);
    var n := |occ|;
    OccurrencesShape(since, since.year, since.month, count);
    MonthListEntries(since, now, currentZone);
    BackwardsDecreasing(occ, months);
    if count >= 1 {
      assert months[n - 1].wall == occ[0];
    }
  }

  /**
   * When `since` is on day 28 or earlier and not in a month after now, no month
   * is skipped: the list is exactly the month count long, from the month of now
   * down to `since`, one month apart.
   */
  lemma MonthListWithoutSkips(since: Naive, now: Moment, currentZone: TimeZone)
    requires since.day <= 28 && MonthCount(since, now.wall) >= 1
    ensures var months := MonthListOf(since, now, currentZone);
      && |months| == MonthCount(since, now.wall)
      && months[0].wall.year == now.wall.year && months[0].wall.month == now.wall.month
      && forall i :: 0 <= i < |months| - 1 ==> MonthOf(months[i].wall) == MonthOf(months[i + 1].wall) + 1
  {
    var count := MonthCount(since, now.wall);
    var occ := MonthlyOccurrences(since, since.year, since.month, count);
    var months := MonthListOf(since, now, currentZone);
    var n := |occ|;
    MonthListEntries(since, now, currentZone);
    OccurrencesWithoutSkips(since, since.year, since.month, count);
    assert count <= MonthsLeft(since.year, since.month);
    assert n == count;
    assert months[0].wall == occ[n - 1];
    assert MonthOf(months[0].wall) == MonthOf(now.wall);
    BackwardsConsecutive(occ, months, MonthOf(since));
  }

  /** Read backwards, strictly increasing months become strictly decreasing ones. */
  lemma BackwardsDecreasing(occ: seq<Naive>, months: seq<Moment>)
    requires |months| == |occ|
    requires forall i :: 0 <= i < |months| ==> months[i].wall == occ[|occ| - 1 - i]
    requires forall i, j :: 0 <= i < j < |occ| ==> MonthOf(occ[i]) < MonthOf(occ[j])
    ensures forall i, j :: 0 <= i < j < |months| ==> MonthOf(months[j].wall) < MonthOf(months[i].wall)
  {
    var n := |occ|;
    forall i, j | 0 <= i < j < n
      ensures MonthOf(months[j].wall) < MonthOf(months[i].wall)
    {
      assert months[j].wall == occ[n - 1 - j] && months[i].wall == occ[n - 1 - i];
    }
  }

  /** Read backwards, months counting up one at a time from `base` count down one at a time. */
  lemma BackwardsConsecutive(occ: seq<Naive>, months: seq<Moment>, base: int)
    requires |months| == |occ|
    requires forall i :: 0 <= i < |months| ==> months[i].wall == occ[|occ| - 1 - i]
    requires forall i :: 0 <= i < |occ| ==> MonthOf(occ[i]) == base + i
    ensures forall i :: 0 <= i < |months| - 1 ==> MonthOf(months[i].wall) == MonthOf(months[i + 1].wall) + 1
  {
    var n := |occ|;
    forall i | 0 <= i < n - 1
      ensures MonthOf(months[i].wall) == MonthOf(months[i + 1].wall) + 1
    {
      assert months[i].wall == occ[n - 1 - i] && months[i + 1].wall == occ[n - 2 - i];
    }
  }

  /** Consecutive entries are also strictly decreasing as datetimes. */
  lemma MonthListDescending(since: Naive, now: Moment, currentZone: TimeZone, i: int)
    requires 0 <= i < |MonthListOf(since, now, currentZone)| - 1
    ensures var months := MonthListOf(since, now, currentZone);
      Earlier(months[i + 1], months[i])
  {
    MonthListShape(since, now, currentZone);
  }

  /** For instance, from the default epoch, November 2013, to March 2024 is 125 months. */
  lemma MonthListEpochLength(now: Moment, currentZone: TimeZone)
    requires now.wall.year == 2024 && now.wall.month == 3
    ensures var months := MonthListOf(MonthListEpoch, now, currentZone);
      && |months| == 125
      && months[0].wall == DateTime(2024, 3, 1, 0, 0, 0, 0)
      && months[124].wall == DateTime(2013, 11, 1, 0, 0, 0, 0)
  {
    MonthListShape(MonthListEpoch, now, currentZone);
    MonthListWithoutSkips(MonthListEpoch, now, currentZone);
  }

  /**
   * One pass of the recurrence loop keeps its invariant: the month either adds
   * its occurrence or is skipped, and the rest comes from the following month.
   */
  lemma RecurrenceStep(start: Naive, count: int, occurrences: seq<Naive>, year: int, month: int)
    requires MinYear <= year <= MaxYear && 1 <= month <= 12 && |occurrences| < count
    requires occurrences + MonthlyOccurrences(start, year, month, count - |occurrences|)
          == MonthlyOccurrences(start, start.year, start.month, count)
    ensures var nextYear := if month == 12 then year + 1 else year;
      var nextMonth := if month == 12 then 1 else month + 1;
      var next := if start.day <= DaysInMonth(year, month) then occurrences + [Occurrence(start, year, month)] else occurrences;
      next + MonthlyOccurrences(start, nextYear, nextMonth, count - |next|)
        == MonthlyOccurrences(start, start.year, start.month, count)
  {
    var nextYear := if month == 12 then year + 1 else year;
    var nextMonth := if month == 12 then 1 else month + 1;
    var remaining := count - |occurrences|;
    if start.day <= DaysInMonth(year, month) {
      var o := Occurrence(start, year, month);
      var rest := MonthlyOccurrences(start, nextYear, nextMonth, remaining - 1);
      assert MonthlyOccurrences(start, year, month, remaining) == [o] + rest;
      assert occurrences + ([o] + rest) == (occurrences + [o]) + rest;
    } else {
      assert MonthlyOccurrences(start, year, month, remaining)
          == MonthlyOccurrences(start, nextYear, nextMonth, remaining);
    }
  }

  /**
   * For a `since` late in the month the skipped months make the list run past
   * now: from 31 January 2024 with now in March 2024, `rrule` is asked for three
   * occurrences and yields 31 January, 31 March and 31 May.
   */
  lemma MonthListRunsPastNow(now: Moment, currentZone: TimeZone)
    requires now.wall.year == 2024 && now.wall.month == 3
    ensures var months := MonthListOf(DateTime(2024, 1, 31, 0, 0, 0, 0), now, currentZone);
      && |months| == 3
      && months[0].wall == DateTime(2024, 5, 31, 0, 0, 0, 0)
      && MonthOf(now.wall) < MonthOf(months[0].wall)
  {
    var since: Naive := DateTime(2024, 1, 31, 0, 0, 0, 0);
    assert MonthlyOccurrences(since, 2024, 6, 0) == [];
    assert MonthlyOccurrences(since, 2024, 5, 1) == [DateTime(2024, 5, 31, 0, 0, 0, 0)];
    assert MonthlyOccurrences(since, 2024, 3, 2)
        == [DateTime(2024, 3, 31, 0, 0, 0, 0), DateTime(2024, 5, 31, 0, 0, 0, 0)];
    assert MonthlyOccurrences(since, 2024, 1, 3)
        == [since, DateTime(2024, 3, 31, 0, 0, 0, 0), DateTime(2024, 5, 31, 0, 0, 0, 0)];
  }

  /** `list(rrule(MONTHLY, dtstart=start, count=count))`, generated month by month. */
  method MonthlyRecurrence(start: Naive, count: int) returns (occurrences: seq<Naive>)
    ensures occurrences == MonthlyOccurrences(start, start.year, start.month, count)
  {
    occurrences := [];
    var year, month := start.year, start.month;
    while |occurrences| < count && year <= MaxYear
      invariant MinYear <= year <= MaxYear + 1 && 1 <= month <= 12
      invariant occurrences + MonthlyOccurrences(start, year, month, count - |occurrences|)
             == MonthlyOccurrences(start, start.year, start.month, count)
      decreases MaxYear + 1 - year, 12 - month
    {
      RecurrenceStep(start, count, occurrences, year, month);
      if start.day <= DaysInMonth(year, month) {
        occurrences := occurrences + [Occurrence(start, year, month)];
      }
      if month == 12 {
        year, month := year + 1, 1;
      } else {
        month := month + 1;
      }
    }
  }

  /**
   * `month_list`: ask `rrule` for the months from `since` to now, localise each into
   * the current zone, then reverse the list in place.
   */
  method MonthList(now: Moment, currentZone: TimeZone, since: Naive := MonthListEpoch)
    returns (months: seq<Moment>)
    ensures months == MonthListOf(since, now, currentZone)
  {
    var count := (now.wall.year - since.year) * 12 + (now.wall.month - since.month) + 1;
    var occurrences := MonthlyRecurrence(since, count);
    var localized := LocalizeAll(occurrences, currentZone);
    var buffer := new Moment[|localized|](i requires 0 <= i < |localized| => localized[i]);
    assert buffer[..] == localized;
    Reverse(buffer);
    months := buffer[..];
  }
}
