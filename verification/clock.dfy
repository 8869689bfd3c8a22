/** Wall-clock arithmetic on integer instants.

    An instant is a number of minutes on the local wall clock of the
    semester's time zone; its day number is `t / 1440` (floor division) and
    day 0 is a Monday, so `day % 7` is Python's `date.weekday()`.
    Parsing an ISO-8601 timestamp (`datetime.fromisoformat`) is a parameter
    of type IsoParser: a partial function, None meaning "raised". */
module Clock {
  import opened Wrappers
  import opened Models
  import opened Text

  const MinutesPerDay: int := 1440

  /** The minutes of the 12-hour daily search window of the negotiator. */
  const SearchWindowMinutes: int := 12 * 60

  type IsoParser = string -> Option<int>

  function DayOf(t: int): int { t / MinutesPerDay }

  function Weekday(day: int): (w: int)
    ensures 0 <= w < 7
  {
    day % 7
  }

  function HourOf(t: int): (h: int)
    ensures 0 <= h < 24
  {
    (t % MinutesPerDay) / 60
  }

  function MinuteOf(t: int): (m: int)
    ensures 0 <= m < 60
  {
    t % 60
  }

  /** What `datetime.replace(hour=, minute=)` accepts. */
  predicate ValidClock(hour: int, minute: int)
  {
    0 <= hour < 24 && 0 <= minute < 60
  }

  /** The instant of `hour:minute` on day `day` (midnight of the day, then `replace`). */
  function At(day: int, hour: int, minute: int): int
  {
    day * MinutesPerDay + hour * 60 + minute
  }

  /** `At` is undone by DayOf, HourOf and MinuteOf for a valid clock time. */
  lemma AtParts(day: int, hour: int, minute: int)
    requires ValidClock(hour, minute)
    ensures DayOf(At(day, hour, minute)) == day
    ensures HourOf(At(day, hour, minute)) == hour
    ensures MinuteOf(At(day, hour, minute)) == minute
  {
    var x := hour * 60 + minute;
    assert 0 <= x < MinutesPerDay;
    assert At(day, hour, minute) == day * MinutesPerDay + x;
    assert At(day, hour, minute) % 60 == minute by {
      assert At(day, hour, minute) == (day * 24 + hour) * 60 + minute;
    }
  }

  /** `strftime("%H:%M")` of an instant. */
  function ClockText(t: int): string
  {
    TwoDigits(HourOf(t)) + ":" + TwoDigits(MinuteOf(t))
  }

  /** `{"mon": 0, ..., "sun": 6}.get(key, 0)`: the weekday a day name denotes,
      Monday for any other key. */
  function DowMapGet(key: string): (i: int)
    ensures 0 <= i < 7
    ensures forall d: DayOfWeek :: key == DayValue(d) ==> i == DayIndex(d)
    ensures i != 0 ==> key == DayValue(DayFromIndex(i))
  {
    if key == "mon" then 0 else if key == "tue" then 1 else if key == "wed" then 2
    else if key == "thu" then 3 else if key == "fri" then 4 else if key == "sat" then 5
    else if key == "sun" then 6 else 0
  }
}
