/**
 * The server scheduler: a daily operating window in Korea Standard Time,
 * optionally only on weekdays, the wait until the next start, and the
 * human-readable form of a wait. KST has no daylight saving, so every day is
 * 86400 seconds long.
 *
 * A clock time is whole seconds since midnight; the weekday is Monday = 0.
 */
module ServerSchedule {
  import opened Wrappers
  import PyStr
  import Decimal

  const Day: int := 86400
  const Week: int := 7 * Day

  predicate IsClock(t: int)
  {
    0 <= t < Day
  }

  /** `_parse_time`: `"H:M"` with `0 <= H <= 23` and `0 <= M <= 59`; any other text is a ValueError. */
  function ParseTime(s: string): (r: Option<int>)
    ensures r.Some? ==> IsClock(r.value) && r.value % 60 == 0
    ensures r.Some? ==> |PyStr.Split(s, ':')| == 2
  {
    var parts := PyStr.Split(s, ':');
    if |parts| != 2 then None
    else ReadClock(Decimal.ParseInt(parts[0]), Decimal.ParseInt(parts[1]))
  }

  /** The range check on the two numbers `int` read. */
  function ReadClock(hour: Option<int>, minute: Option<int>): (r: Option<int>)
    ensures r.Some? <==> hour.Some? && minute.Some? && 0 <= hour.value <= 23 && 0 <= minute.value <= 59
    ensures r.Some? ==> r.value == hour.value * 3600 + minute.value * 60
  {
    match (hour, minute)
    case (Some(h), Some(m)) => if 0 <= h <= 23 && 0 <= m <= 59 then Some(h * 3600 + m * 60) else None
    case _ => None
  }

  lemma NoColonInNumber(i: int)
    ensures ':' !in Decimal.IntToStr(i)
  {
    var s := Decimal.IntToStr(i);
    if i < 0 {
      var digits := Decimal.NatToDigits(-i);
      assert s == "-" + digits;
      forall k | 0 <= k < |s| ensures s[k] != ':' {
        if k > 0 {
          assert s[k] == digits[k - 1];
        }
      }
    }
  }

  /** Reading `f"{h}:{m}"` gives the time for an in-range hour and minute and is rejected otherwise. */
  lemma ParseTimeReadsClock(h: int, m: int)
    ensures ParseTime(Decimal.IntToStr(h) + ":" + Decimal.IntToStr(m)) ==
              if 0 <= h <= 23 && 0 <= m <= 59 then Some(h * 3600 + m * 60) else None
  {
    var a := Decimal.IntToStr(h);
    var b := Decimal.IntToStr(m);
    NoColonInNumber(h);
    NoColonInNumber(m);
    SplitClock(a, b);
    Decimal.ParseIntRoundTrip(h);
    Decimal.ParseIntRoundTrip(m);
  }

  lemma SplitClock(a: string, b: string)
    requires ':' !in a && ':' !in b
    ensures PyStr.Split(a + ":" + b, ':') == [a, b]
  {
    assert a + ":" + b == a + [':'] + b;
    PyStr.SplitCons(a, b, ':');
    PyStr.SplitWithout(b, ':');
  }

  /** `_is_within_schedule`: inclusive `[start, end]`, or wrapping past midnight when `start > end`. */
  function WithinSchedule(start: int, end: int, now: int): (r: bool)
    ensures start <= end ==> (r <==> start <= now <= end)
  {
    if start <= end then start <= now <= end
    else now >= start || now <= end
  }

  /** A window that wraps past midnight is everything outside the open gap between its end and its start. */
  lemma WrappedWindowIsTheGapsComplement(start: int, end: int, now: int)
    requires start > end
    ensures WithinSchedule(start, end, now) <==> !(end < now < start)
  {
  }

  /** `_time_until_start`: to today's start when it is still ahead, otherwise to tomorrow's. */
  function TimeUntilStart(start: int, now: int): (r: int)
    requires IsClock(start) && IsClock(now)
    ensures 0 < r <= Day
    ensures (now + r) % Day == start
  {
    if now < start then start - now else start + Day - now
  }

  /** The wait is the first moment the clock shows the start time again. */
  lemma TimeUntilStartIsTheFirstStart(start: int, now: int, d: int)
    requires IsClock(start) && IsClock(now)
    requires 0 < d < TimeUntilStart(start, now)
    ensures (now + d) % Day != start
  {
    if now + d >= Day {
      assert (now + d) % Day == now + d - Day;
    } else {
      assert (now + d) % Day == now + d;
    }
  }

  /** The weekday scheduler's window: never on Saturday or Sunday. */
  function WeekdayWithinSchedule(weekday: int, start: int, end: int, now: int): (r: bool)
    ensures weekday >= 5 ==> !r
    ensures weekday < 5 ==> r == WithinSchedule(start, end, now)
  {
    if weekday >= 5 then false else WithinSchedule(start, end, now)
  }

  /** The weekday scheduler's wait: the daily rule on a weekday, next Monday's start at the weekend. */
  function WeekdayTimeUntilStart(weekday: int, start: int, now: int): (r: int)
    requires 0 <= weekday < 7 && IsClock(start) && IsClock(now)
    ensures r > 0
    ensures weekday < 5 ==> r == TimeUntilStart(start, now)
    ensures weekday >= 5 ==> (weekday * Day + now + r) % Week == start && r < 3 * Day
  {
    if weekday < 5 then TimeUntilStart(start, now)
    else
      var r := (7 - weekday) * Day + start - now;
      assert weekday * Day + now + r == Week + start;
      r
  }

  /** The rounded-down parts `_format_timedelta` prints. */
  datatype Wait = HoursMinutes(hours: int, minutes: int) | Minutes(minutes: int) | Seconds(seconds: int)

  /** `_format_timedelta` on whole seconds: hours and minutes, else minutes, else seconds. */
  function FormatWait(total: int): (r: Wait)
    ensures total >= 3600 <==> r.HoursMinutes?
    ensures total >= 0 ==> (60 <= total < 3600 <==> r.Minutes?)
    ensures r.HoursMinutes? ==>
              0 <= r.minutes < 60 &&
              r.hours * 3600 + r.minutes * 60 <= total < r.hours * 3600 + r.minutes * 60 + 60
    ensures r.Minutes? ==> 0 < r.minutes < 60 && (total >= 0 ==> r.minutes * 60 <= total < r.minutes * 60 + 60)
    ensures total >= 0 && r.Seconds? ==> r.seconds == total
  {
    var hours := total / 3600;
    var remainder := total % 3600;
    var minutes := remainder / 60;
    var seconds := remainder % 60;
    if hours > 0 then HoursMinutes(hours, minutes)
    else if minutes > 0 then Minutes(minutes)
    else Seconds(seconds)
  }

  function WaitText(w: Wait): string
  {
    match w
    case HoursMinutes(h, m) => Decimal.IntToStr(h) + "시간 " + Decimal.IntToStr(m) + "분"
    case Minutes(m) => Decimal.IntToStr(m) + "분"
    case Seconds(s) => Decimal.IntToStr(s) + "초"
  }
}
