/**
 * Time-zone-aware datetimes. A time zone is modelled as a fixed offset from UTC, so
 * localisation is an order-preserving tagging of wall-clock fields; a `Moment` is a
 * Python `datetime`: wall-clock fields and an optional tzinfo (none means naive).
 */
module Zones {
  import opened Wrappers
  import opened Calendar

  /** A tzinfo: a name and a fixed offset east of UTC, in seconds. */
  datatype Zone = Zone(name: string, utcOffset: int)

  /** Python requires a UTC offset strictly within one day. */
  type TimeZone = z: Zone | -SecondsPerDay < z.utcOffset < SecondsPerDay witness Zone("UTC", 0)

  /** A Python `datetime`; `zone == None` is a naive one. */
  datatype Moment = Moment(wall: Naive, zone: Option<TimeZone>)

  predicate IsAware(m: Moment) {
    m.zone.Some?
  }

  /** `tz.localize(t)`: attach the zone to a naive datetime, keeping its wall-clock fields. */
  function Localize(t: Naive, tz: TimeZone): Moment {
    Moment(t, Some(tz))
  }

  /** The list form of `localize`: every element localised, order and length kept. */
  function LocalizeAll(ts: seq<Naive>, tz: TimeZone): (ms: seq<Moment>)
    ensures |ms| == |ts|
    ensures forall i :: 0 <= i < |ts| ==> ms[i].wall == ts[i] && ms[i].zone == Some(tz)
  {
    seq(|ts|, i requires 0 <= i < |ts| => Localize(ts[i], tz))
  }

  /** The UTC instant of an aware datetime, in microseconds on the naive time line. */
  function UtcMicros(m: Moment): int
    requires IsAware(m)
  {
    Micros(m.wall) - m.zone.value.utcOffset * MicrosPerSecond
  }

  /**
   * Python's `a < b` for two naive or two aware datetimes: with the same tzinfo the
   * wall-clock fields are compared, otherwise both are first converted to UTC.
   */
  predicate Earlier(a: Moment, b: Moment)
    requires IsAware(a) == IsAware(b)
  {
    if a.zone == b.zone then Before(a.wall, b.wall) else UtcMicros(a) < UtcMicros(b)
  }

  /** A localised datetime keeps its wall clock and stands for the instant `offset` seconds earlier in UTC. */
  lemma LocalizedInstant(t: Naive, tz: TimeZone)
    ensures var m := Localize(t, tz);
      && IsAware(m) && m.wall == t && m.zone == Some(tz)
      && UtcMicros(m) == Micros(t) - tz.utcOffset * MicrosPerSecond
  {
  }

  /** Python's same-tzinfo shortcut agrees with comparing UTC instants. */
  lemma EarlierIsUtcOrder(a: Moment, b: Moment)
    requires IsAware(a) && IsAware(b)
    ensures Earlier(a, b) <==> UtcMicros(a) < UtcMicros(b)
  {
    if a.zone == b.zone {
      BeforeIffEarlier(a.wall, b.wall);
    }
  }

  /** Localising into one zone preserves and reflects the naive order. */
  lemma LocalizePreservesOrder(s: Naive, t: Naive, tz: TimeZone)
    ensures Earlier(Localize(s, tz), Localize(t, tz)) <==> Before(s, t)
    ensures UtcMicros(Localize(s, tz)) < UtcMicros(Localize(t, tz)) <==> Before(s, t)
  {
    BeforeIffEarlier(s, t);
  }

  /**
   * `m.astimezone(tz)`: the same object when `tz` is already its zone; otherwise the
   * wall clock moves to UTC and then to `tz`, each step failing (Python's
   * OverflowError) when it leaves years 1..9999.
   */
  function AsTimeZone(m: Moment, tz: TimeZone): (r: Option<Moment>)
    requires IsAware(m)
    ensures m.zone == Some(tz) ==> r == Some(m)
    ensures r.Some? ==> r.value.zone == Some(tz) && UtcMicros(r.value) == UtcMicros(m)
    ensures r.Some? ==> r.value.wall.microsecond == m.wall.microsecond
    ensures r.None? <==>
      && m.zone != Some(tz)
      && (|| AddSeconds(m.wall, -m.zone.value.utcOffset).None?
          || AddSeconds(AddSeconds(m.wall, -m.zone.value.utcOffset).value, tz.utcOffset).None?)
  {
    if m.zone == Some(tz) then Some(m)
    else
      match AddSeconds(m.wall, -m.zone.value.utcOffset)
      case None => None
      case Some(utc) =>
        match AddSeconds(utc, tz.utcOffset)
        case None => None
        case Some(local) => Some(Moment(local, Some(tz)))
  }
}
