/**
  The access-window policy of the harvester: bulk requests to the E-utilities
  service are allowed on Saturday and Sunday, and on other days only at or
  after 21:00 or at or before 05:00 local (US Eastern) time.

  The time-zone conversion and the wall clock are not modelled: the caller
  supplies the local weekday (as Python's `datetime.weekday()`, Monday = 0)
  and the local time of day.
*/
module AccessWindow {

  const MicrosPerSecond: int := 1_000_000
  const MicrosPerMinute: int := 60_000_000
  const MicrosPerHour: int := 3_600_000_000
  const MicrosPerDay: int := 86_400_000_000

  /** First day of the weekend in `datetime.weekday()` numbering (Saturday). */
  const Saturday: int := 5

  /** Monday = 0, ..., Sunday = 6. */
  type Weekday = d: int | 0 <= d < 7

  /** A naive `datetime.time` value; its fields have the ranges Python enforces. */
  datatype ClockTime = ClockTime(hour: int, minute: int, second: int, microsecond: int) {
    predicate Valid() {
      0 <= hour < 24 && 0 <= minute < 60 && 0 <= second < 60 && 0 <= microsecond < MicrosPerSecond
    }
  }

  /** Microseconds since midnight. */
  function Micros(t: ClockTime): int {
    t.hour * 3_600_000_000 + t.minute * 60_000_000 + t.second * 1_000_000 + t.microsecond
  }

  /** Where an instant falls within its hour, minute and second. */
  lemma MicrosBounds(t: ClockTime)
    requires t.Valid()
    ensures t.hour * 3_600_000_000 <= Micros(t) < t.hour * 3_600_000_000 + 3_600_000_000
    ensures t.minute * 60_000_000 <= Micros(t) - t.hour * 3_600_000_000 < t.minute * 60_000_000 + 60_000_000
    ensures t.second * 1_000_000 <= Micros(t) - t.hour * 3_600_000_000 - t.minute * 60_000_000 < t.second * 1_000_000 + 1_000_000
  {
  }

  /** Python compares `time` values field by field, hour first. */
  predicate ClockLessEq(a: ClockTime, b: ClockTime) {
    if a.hour != b.hour then a.hour < b.hour
    else if a.minute != b.minute then a.minute < b.minute
    else if a.second != b.second then a.second < b.second
    else a.microsecond <= b.microsecond
  }

  /** The window's edges: 21:00 and 05:00. */
  const Opens: ClockTime := ClockTime(21, 0, 0, 0)
  const Closes: ClockTime := ClockTime(5, 0, 0, 0)

  /** On valid clock values, Python's field-by-field order is the order of the instants. */
  lemma ClockOrderIsInstantOrder(a: ClockTime, b: ClockTime)
    requires a.Valid() && b.Valid()
    ensures ClockLessEq(a, b) <==> Micros(a) <= Micros(b)
  {
    MicrosBounds(a);
    MicrosBounds(b);
  }

  /**
    `is_request_allowed`, with the local weekday and time of day as inputs:
    allowed on the weekend, or when the time is at or after 21:00 or at or
    before 05:00 (both bounds inclusive).
  */
  function IsRequestAllowed(weekday: Weekday, now: ClockTime): (allowed: bool)
    requires now.Valid()
    ensures allowed <==>
      weekday >= Saturday || Micros(now) >= 21 * MicrosPerHour || Micros(now) <= 5 * MicrosPerHour
  {
    ClockOrderIsInstantOrder(Opens, now);
    ClockOrderIsInstantOrder(now, Closes);
    if weekday >= Saturday then true
    else if ClockLessEq(Opens, now) || ClockLessEq(now, Closes) then true
    else false
  }

  /** The `datetime.time` value for a number of microseconds since midnight. */
  function ClockOf(us: int): (t: ClockTime)
    requires 0 <= us < MicrosPerDay
    ensures t.Valid() && Micros(t) == us
  {
    var inHour := us % MicrosPerHour;
    var inMinute := inHour % MicrosPerMinute;
    ClockTime(us / MicrosPerHour, inHour / MicrosPerMinute,
              inMinute / MicrosPerSecond, inMinute % MicrosPerSecond)
  }

  /** The policy over a weekday index and an integer time of day in microseconds. */
  function IsAllowedAt(weekday: Weekday, us: int): (allowed: bool)
    requires 0 <= us < MicrosPerDay
    ensures allowed <==> weekday >= Saturday || us >= 21 * MicrosPerHour || us <= 5 * MicrosPerHour
  {
    IsRequestAllowed(weekday, ClockOf(us))
  }

  /** The same policy read off the clock fields: on a weekday, allowed exactly from 21:00
      through the end of the day and from midnight through 05:00:00.000000. */
  lemma WeekdayWindowByHour(weekday: Weekday, now: ClockTime)
    requires now.Valid() && weekday < Saturday
    ensures IsRequestAllowed(weekday, now) <==>
      now.hour >= 21 || now.hour < 5 ||
      (now.hour == 5 && now.minute == 0 && now.second == 0 && now.microsecond == 0)
  {
    MicrosBounds(now);
  }

  /** The boundary instants: 21:00:00 and 05:00:00 are allowed, the instants just inside
      the closed period are not. */
  lemma WeekdayBoundaries(weekday: Weekday)
    requires weekday < Saturday
    ensures IsRequestAllowed(weekday, ClockTime(21, 0, 0, 0))
    ensures IsRequestAllowed(weekday, ClockTime(5, 0, 0, 0))
    ensures !IsRequestAllowed(weekday, ClockTime(20, 59, 59, 0))
    ensures !IsRequestAllowed(weekday, ClockTime(20, 59, 59, 999_999))
    ensures !IsRequestAllowed(weekday, ClockTime(5, 0, 1, 0))
    ensures !IsRequestAllowed(weekday, ClockTime(5, 0, 0, 1))
  {
  }

  /** Any instant on Saturday or Sunday is allowed. */
  lemma WeekendAlwaysAllowed(weekday: Weekday, now: ClockTime)
    requires now.Valid() && weekday >= Saturday
    ensures IsRequestAllowed(weekday, now)
  {
  }
}
