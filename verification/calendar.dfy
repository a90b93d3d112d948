/**
 * .NET's DateTime and TimeSpan, reduced to what the controllers use.
 *
 * A DateTime is a count of 100-nanosecond ticks since 0001-01-01 00:00 (a Monday),
 * bounded by DateTime.MaxValue; a TimeSpan is a signed tick count. Adding days
 * outside that range throws in .NET, which the model reports as `None`.
 */
module Calendar {
  import opened Wrappers

  const TicksPerDay: int := 864_000_000_000
  /** DateTime.MaxValue.Ticks: 9999-12-31 23:59:59.9999999. */
  const MaxTicks: int := 3_155_378_975_999_999_999

  type DateTime = t: int | 0 <= t <= MaxTicks
  type TimeSpan = int

  /** DateTime.Date (and DateTime.Today when applied to the current instant). */
  function Date(t: DateTime): (d: DateTime)
    ensures d <= t < d + TicksPerDay
    ensures d % TicksPerDay == 0
  {
    t - t % TicksPerDay
  }

  /** DateTime.TimeOfDay. */
  function TimeOfDay(t: DateTime): (r: TimeSpan)
    ensures 0 <= r < TicksPerDay
    ensures Date(t) + r == t
  {
    t % TicksPerDay
  }

  /** DateTime.DayOfWeek, Sunday = 0 ... Saturday = 6; day 0 of the calendar is a Monday. */
  function DayOfWeek(t: DateTime): (r: int)
    ensures 0 <= r < 7
  {
    (t / TicksPerDay + 1) % 7
  }

  /** DateTime.AddDays with a whole number of days; `None` where .NET throws ArgumentOutOfRangeException. */
  function AddDays(t: DateTime, days: int): (r: Option<DateTime>)
    ensures r.Some? <==> 0 <= t + days * TicksPerDay <= MaxTicks
    ensures r.Some? ==> r.value == t + days * TicksPerDay
  {
    var u := t + days * TicksPerDay;
    if 0 <= u <= MaxTicks then Some(u) else None
  }

  /** The admin dashboard's calendar week: [start, end). */
  datatype Window = Window(start: DateTime, end: DateTime) {
    predicate Contains(t: DateTime) {
      start <= t < end
    }
  }

  /** Last day index (0-based) on which the week window can still be computed. */
  const LastWindowDay: int := 3_652_052

  /**
   * The week around `now`: start = today - (int)today.DayOfWeek days, end = start + 7 days.
   * `None` where either AddDays call would throw.
   */
  function WeekWindow(now: DateTime): (r: Option<Window>)
    ensures r.Some? ==> r.value.Contains(now) && r.value.Contains(Date(now))
    ensures r.Some? ==> r.value.end - r.value.start == 7 * TicksPerDay
    ensures r.Some? ==> r.value.start % TicksPerDay == 0 && DayOfWeek(r.value.start) == 0
    ensures r.None? <==> now < 6 * TicksPerDay || now >= (LastWindowDay + 1) * TicksPerDay
  {
    var today := Date(now);
    var day := now / TicksPerDay;
    assert today == day * TicksPerDay;
    assert DayOfWeek(today) == (day + 1) % 7;
    match AddDays(today, -DayOfWeek(today))
    case None => None
    case Some(start) =>
      match AddDays(start, 7)
      case None => None
      case Some(end) => Some(Window(start, end))
  }

  /** A yyyyMMddHHmmss rendering of an instant: fourteen decimal digits. */
  type Stamp = s: string | |s| == 14 && forall i | 0 <= i < |s| :: '0' <= s[i] <= '9'
    witness "00010101000000"

  /**
   * One reading of the system clock (DateTime.Now) together with its yyyyMMddHHmmss
   * rendering, which the caller supplies instead of the model formatting it.
   */
  datatype Clock = Clock(now: DateTime, stamp: Stamp)
}
