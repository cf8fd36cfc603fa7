/** The auto route's "<h>h <m>m" rendering of the remaining minutes. */
module Display {
  import opened Wrappers
  import opened JsArith
  import opened ClockText

  /** Hours and minutes, as shown to the caller. */
  datatype Duration = Duration(hours: int, minutes: int)

  /** `h = Math.floor(diff / 60)` and `m = diff % 60`. The split recombines
      only for a non-negative difference: for a negative one JavaScript's `%`
      is negative too. */
  function HoursMinutes(diff: int): (d: Duration)
    ensures diff >= 0 ==> 0 <= d.hours && 0 <= d.minutes < 60 && 60 * d.hours + d.minutes == diff
  {
    Duration(FloorDiv60(diff), JsRem60(diff))
  }

  /** `s` is a numeral followed by the one character `unit`. */
  predicate HasUnit(s: string, unit: char)
  {
    |s| >= 2 && s[|s| - 1] == unit && IsNumeral(s[..|s| - 1])
  }

  /** Reads a rendered duration back: two space-separated fields, a number of
      hours ending in 'h' and a number of minutes ending in 'm'. */
  function ReadRendered(s: string): (r: Option<Duration>)
    ensures r.Some? ==> r.value.hours >= 0 && r.value.minutes >= 0
  {
    var fields := Split(s, ' ');
    if |fields| == 2 && HasUnit(fields[0], 'h') && HasUnit(fields[1], 'm') then
      Some(Duration(DigitsValue(fields[0][..|fields[0]| - 1]), DigitsValue(fields[1][..|fields[1]| - 1])))
    else None
  }

  /** Decimal text never contains a space. */
  lemma NoSpaceInNumeral(s: string)
    requires AllDigits(s)
    ensures ' ' !in s
  {
  }

  /** `${h}h ${m}m`: the text reads back as the same hours and minutes. */
  function Render(d: Duration): (s: string)
    requires d.hours >= 0 && d.minutes >= 0
    ensures ReadRendered(s) == Some(d)
  {
    var hs, ms := Decimal(d.hours) + "h", Decimal(d.minutes) + "m";
    NoSpaceInNumeral(Decimal(d.hours));
    NoSpaceInNumeral(Decimal(d.minutes));
    assert ' ' !in hs;
    assert ' ' !in ms;
    SplitField(hs, ms, ' ');
    SplitWhole(ms, ' ');
    assert hs[..|hs| - 1] == Decimal(d.hours);
    assert ms[..|ms| - 1] == Decimal(d.minutes);
    hs + [' '] + ms
  }
}
