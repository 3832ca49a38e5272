/**
 * Time text from the exchange feed read as a naive Korea Standard Time
 * datetime: `HHMMSS`, or `H:M:S[:...]`, on today's date; any other text is
 * the current moment. The clock and today's date are not modelled: a
 * result is either a clock time on today's date or the current moment.
 */
module KstTime {
  import opened Wrappers
  import opened PyStr
  import Decimal

  datatype Clock = Clock(hour: int, minute: int, second: int)

  /** The ranges `datetime(...)` accepts. */
  predicate ValidClock(c: Clock)
  {
    0 <= c.hour < 24 && 0 <= c.minute < 60 && 0 <= c.second < 60
  }

  /** A naive datetime as these readers produce it. */
  datatype Moment = Today(clock: Clock) | Now

  /** What the readers can raise. */
  datatype Failure = IndexError | ValueError

  /** `datetime(y, m, d, hour, minute, second)` after three `int()` calls: any rejected number or field out of range is a ValueError. */
  function MakeClock(hour: Option<int>, minute: Option<int>, second: Option<int>): (r: Result<Clock, Failure>)
    ensures r.Success? <==> hour.Some? && minute.Some? && second.Some? &&
                            ValidClock(Clock(hour.value, minute.value, second.value))
    ensures r.Success? ==> r.value == Clock(hour.value, minute.value, second.value)
    ensures r.Failure? ==> r.error == ValueError
  {
    if hour.None? || minute.None? || second.None? then Failure(ValueError)
    else
      var c := Clock(hour.value, minute.value, second.value);
      if ValidClock(c) then Success(c) else Failure(ValueError)
  }

  /** Six ASCII digits, the compact `HHMMSS` form. */
  predicate Compact(s: string)
  {
    |s| == 6 && IsDigits(s)
  }

  /** The clock the compact form names, read two digits at a time. */
  function CompactClock(s: string): Clock
    requires Compact(s)
  {
    Clock(10 * Decimal.DigitValue(s[0]) + Decimal.DigitValue(s[1]),
          10 * Decimal.DigitValue(s[2]) + Decimal.DigitValue(s[3]),
          10 * Decimal.DigitValue(s[4]) + Decimal.DigitValue(s[5]))
  }

  /** `int()` of two digit characters is their two-digit value, as each slice of the compact form is read. */
  lemma PairValue(p: string, tens: char, units: char)
    requires |p| == 2 && p[0] == tens && p[1] == units && IsDigit(tens) && IsDigit(units)
    ensures Decimal.ParseInt(p) == Some(10 * Decimal.DigitValue(tens) + Decimal.DigitValue(units))
  {
    assert IsDigits(p);
    Decimal.TwoDigits(p);
  }

  /**
   * `time_string_to_kst`: the compact form is read by slices, each of which
   * `int()` reads as its two-digit value (`PairValue`); text holding
   * a colon is read part by part, left to right, so a first or second part
   * `int` rejects is a ValueError before a missing third part is an
   * IndexError; any other text is the current moment. A clock out of range
   * or a part `int` rejects is a ValueError.
   */
  function TimeStringToKst(s: string): (r: Result<Moment, Failure>)
    ensures Compact(s) ==>
              (r.Success? <==> ValidClock(CompactClock(s))) &&
              (r.Success? ==> r.value == Today(CompactClock(s)))
    ensures !Compact(s) && ':' in s ==>
              |Split(s, ':')| >= 2 &&
              (Decimal.ParseInt(Split(s, ':')[0]).None? || Decimal.ParseInt(Split(s, ':')[1]).None? ==> r == Failure(ValueError)) &&
              (r == Failure(IndexError) <==>
                 Decimal.ParseInt(Split(s, ':')[0]).Some? && Decimal.ParseInt(Split(s, ':')[1]).Some? && |Split(s, ':')| < 3)
    ensures r == Success(Now) <==> !Compact(s) && ':' !in s
    ensures r.Success? && r.value.Today? ==> ValidClock(r.value.clock)
  {
    if Compact(s) then
      var c := CompactClock(s);
      if ValidClock(c) then Success(Today(c)) else Failure(ValueError)
    else if ':' in s then
      var parts := Split(s, ':');
      SplitAtSeparator(s, ':');
      var hour, minute := Decimal.ParseInt(parts[0]), Decimal.ParseInt(parts[1]);
      if hour.None? || minute.None? then Failure(ValueError)
      else if |parts| < 3 then Failure(IndexError)
      else
        var c := MakeClock(hour, minute, Decimal.ParseInt(parts[2]));
        if c.Success? then Success(Today(c.value)) else Failure(c.error)
    else Success(Now)
  }

  /** The colon form `f"{h}:{m}:{s}"` reads back as that clock when it is in range, and is a ValueError otherwise. */
  lemma ColonFormReadsBack(c: Clock)
    ensures TimeStringToKst(ColonText(c)) ==
              if ValidClock(c) then Success(Today(c)) else Failure(ValueError)
  {
    NoColon(c.hour);
    NoColon(c.minute);
    NoColon(c.second);
    Decimal.ParseIntRoundTrip(c.hour);
    Decimal.ParseIntRoundTrip(c.minute);
    Decimal.ParseIntRoundTrip(c.second);
    ColonReads(Decimal.IntToStr(c.hour), Decimal.IntToStr(c.minute), Decimal.IntToStr(c.second), c);
  }

  /** Three colon-free parts that read as a clock's fields, joined by colons, read as that clock. */
  lemma ColonReads(a: string, b: string, d: string, c: Clock)
    requires ':' !in a && ':' !in b && ':' !in d
    requires Decimal.ParseInt(a) == Some(c.hour) && Decimal.ParseInt(b) == Some(c.minute)
    requires Decimal.ParseInt(d) == Some(c.second)
    ensures TimeStringToKst(a + ":" + b + ":" + d) ==
              if ValidClock(c) then Success(Today(c)) else Failure(ValueError)
  {
    ColonSplit(a, b, d);
    ColonBranch(a + ":" + b + ":" + d, Some(c.hour), Some(c.minute), Some(c.second));
  }

  /**
   * Two colon-free parts joined by one colon: an IndexError when both
   * parts are integers, and a ValueError otherwise.
   */
  lemma TwoParts(a: string, b: string)
    requires ':' !in a && ':' !in b
    ensures TimeStringToKst(a + ":" + b) ==
              if Decimal.ParseInt(a).Some? && Decimal.ParseInt(b).Some? then Failure(IndexError) else Failure(ValueError)
  {
    var s := a + ":" + b;
    assert s == a + [':'] + b;
    assert s[|a|] == ':';
    PyStr.SplitCons(a, b, ':');
    PyStr.SplitWithout(b, ':');
    assert Split(s, ':') == [a, b];
  }

  /** Two-digit hours and minutes alone, as in `12:30`, are an IndexError. */
  lemma HoursAndMinutesAlone(a: string, b: string)
    requires |a| == 2 && IsDigits(a) && |b| == 2 && IsDigits(b)
    ensures TimeStringToKst(a + ":" + b) == Failure(IndexError)
  {
    Decimal.TwoDigits(a);
    Decimal.TwoDigits(b);
    TwoParts(a, b);
  }

  /** A lone colon is a ValueError: its empty first part is not an integer. */
  lemma LoneColon(a: string)
    requires a == ""
    ensures TimeStringToKst(a + ":" + a) == Failure(ValueError)
  {
    TwoParts(a, a);
  }

  /** Colon text with at least three parts is read from those parts. */
  lemma ColonBranch(s: string, hour: Option<int>, minute: Option<int>, second: Option<int>)
    requires !Compact(s) && ':' in s && |Split(s, ':')| >= 3
    requires Decimal.ParseInt(Split(s, ':')[0]) == hour
    requires Decimal.ParseInt(Split(s, ':')[1]) == minute
    requires Decimal.ParseInt(Split(s, ':')[2]) == second
    ensures var c := MakeClock(hour, minute, second);
            TimeStringToKst(s) == if c.Success? then Success(Today(c.value)) else Failure(c.error)
  {
  }

  lemma ColonSplit(a: string, b: string, d: string)
    requires ':' !in a && ':' !in b && ':' !in d
    ensures var s := a + ":" + b + ":" + d;
            ':' in s && !Compact(s) && Split(s, ':') == [a, b, d]
  {
    var s := a + ":" + b + ":" + d;
    assert s == a + [':'] + (b + [':'] + d);
    SplitCons(a, b + [':'] + d, ':');
    SplitCons(b, d, ':');
    SplitWithout(d, ':');
    assert s[|a|] == ':';
  }

  function ColonText(c: Clock): string
  {
    Decimal.IntToStr(c.hour) + ":" + Decimal.IntToStr(c.minute) + ":" + Decimal.IntToStr(c.second)
  }

  lemma NoColon(i: int)
    ensures ':' !in Decimal.IntToStr(i)
  {
    var s := Decimal.IntToStr(i);
    if i < 0 {
      assert s == "-" + Decimal.NatToDigits(-i);
      assert forall k :: 1 <= k < |s| ==> s[k] == Decimal.NatToDigits(-i)[k - 1];
    }
  }

  /** The compact form of an in-range clock, zero-padded two digits per field, reads back as that clock. */
  lemma CompactFormReadsBack(c: Clock)
    requires ValidClock(c)
    ensures TimeStringToKst(CompactText(c)) == Success(Today(c))
  {
    var s := CompactText(c);
    assert Compact(s);
    assert CompactClock(s) == c;
  }

  function CompactText(c: Clock): (s: string)
    requires ValidClock(c)
  {
    [Decimal.DigitChar(c.hour / 10), Decimal.DigitChar(c.hour % 10),
     Decimal.DigitChar(c.minute / 10), Decimal.DigitChar(c.minute % 10),
     Decimal.DigitChar(c.second / 10), Decimal.DigitChar(c.second % 10)]
  }

  /** A datetime with an optional zone name; the wall-clock fields stand for the rest. */
  datatype DateTime = DateTime(wall: int, zone: Option<string>)

  /** `kst_to_naive`: the zone is dropped and the wall clock kept; a naive value is returned as it is. */
  function KstToNaive(dt: DateTime): (r: DateTime)
    ensures r.zone.None? && r.wall == dt.wall
    ensures dt.zone.None? ==> r == dt
  {
    if dt.zone.Some? then dt.(zone := None) else dt
  }
}
