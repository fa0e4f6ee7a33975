/**
 * Calendar arithmetic on day numbers, standing in for date-fns (`startOfWeek`, `isSameDay`,
 * `format(d, 'eeee')`, `differenceInSeconds`). Day 0 is 1970-01-01, a Thursday; there are no
 * time zones and every day has 86 400 seconds.
 */
module Dates {
  import opened Types

  const MillisPerDay: int := 86_400_000
  const SecondsPerDay: int := 86_400

  /** The day a timestamp falls on (floor division, so it works before 1970 too). */
  function DayOf(ms: int): int {
    ms / MillisPerDay
  }

  /** The timestamp of a day's midnight, what `new Date('yyyy-MM-dd')` parses to. */
  function MidnightOf(day: int): int {
    day * MillisPerDay
  }

  lemma MidnightIsOnItsDay(day: int)
    ensures DayOf(MidnightOf(day)) == day
  {
  }

  /** `getDay`: 0 is Sunday, 6 is Saturday. */
  function DayOfWeek(day: int): (w: int)
    ensures 0 <= w < 7
  {
    (day + 4) % 7
  }

  /** `startOfWeek(day, { weekStartsOn })`: the latest day on or before `day` with that weekday. */
  function StartOfWeek(day: int, weekStartsOn: int): (s: int)
    requires 0 <= weekStartsOn < 7
    ensures s <= day < s + 7
    ensures DayOfWeek(s) == weekStartsOn
  {
    day - (DayOfWeek(day) - weekStartsOn + 7) % 7
  }

  /** The application's weeks start on Saturday (`weekStartsOn: 6`). */
  const SaturdayIndex := 6

  function WeekStart(day: int): (s: int)
    ensures s <= day < s + 7 && DayOfWeek(s) == SaturdayIndex
  {
    StartOfWeek(day, SaturdayIndex)
  }

  /** Every day of one Saturday-to-Friday week has the same week start. */
  lemma WeekStartIsShared(d1: int, d2: int)
    requires WeekStart(d1) <= d2 < WeekStart(d1) + 7
    ensures WeekStart(d2) == WeekStart(d1)
  {
    var s1, s2 := WeekStart(d1), WeekStart(d2);
    var q1, q2 := (s1 + 4) / 7, (s2 + 4) / 7;
    assert s1 + 4 == 7 * q1 + 6 && s2 + 4 == 7 * q2 + 6;
    assert -7 < 7 * (q1 - q2) < 7;
  }

  /** The lower-cased `format(day, 'eeee')`, as a `WeekDay`. */
  function WeekDayOf(day: int): (w: WeekDay)
    ensures w == Saturday <==> DayOfWeek(day) == 6
    ensures w == Sunday <==> DayOfWeek(day) == 0
    ensures w == Friday <==> DayOfWeek(day) == 5
  {
    match DayOfWeek(day)
    case 0 => Sunday
    case 1 => Monday
    case 2 => Tuesday
    case 3 => Wednesday
    case 4 => Thursday
    case 5 => Friday
    case _ => Saturday
  }

  /** `Math.trunc(a / b)`: JavaScript division rounded toward zero. */
  function TruncDiv(a: int, b: int): (q: int)
    requires b > 0
    ensures a >= 0 ==> q == a / b
    ensures a < 0 ==> q == -((-a) / b)
  {
    if a >= 0 then a / b else -((-a) / b)
  }

  /** `differenceInSeconds(later, earlier)` on timestamps: whole seconds, truncated toward zero. */
  function DifferenceInSeconds(laterMs: int, earlierMs: int): (s: int)
    ensures laterMs - earlierMs >= 0 ==> s >= 0 && s * 1000 <= laterMs - earlierMs < (s + 1) * 1000
    ensures laterMs - earlierMs < 0 ==> s <= 0 && (s - 1) * 1000 < laterMs - earlierMs <= s * 1000
  {
    TruncDiv(laterMs - earlierMs, 1000)
  }
}
