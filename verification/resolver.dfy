/** The next-prayer resolver. Time is one shared day frame: "now" is the
    number of seconds since today's midnight in the provider's timezone, and
    a timing falls at its hour and minute with the seconds zeroed. */
module Resolver {
  import opened Wrappers
  import opened Prayer
  import opened JsArith
  import opened Search

  const SecondsPerMinute: int := 60
  const MinutesPerDay: int := 1440
  const SecondsPerDay: int := 86400

  /** A reading of the clock within the current day. */
  predicate ValidNow(nowSec: int)
  {
    0 <= nowSec < SecondsPerDay
  }

  /** The instant, in seconds of today, at which `t` falls. */
  function InstantToday(t: TimeOfDay): int
  {
    SecondsPerMinute * MinuteOfDay(t)
  }

  /** `prayerTime.isAfter(now)`: strictly later, so a timing that falls
      exactly at now has already passed. */
  predicate After(t: Timing, nowSec: int)
  {
    InstantToday(t.time) > nowSec
  }

  /** The test is strict to the second: a timing falling exactly at now has
      passed, and one falling a second later is still ahead. */
  lemma AfterIsStrict(t: Timing, nowSec: int)
    ensures InstantToday(t.time) == nowSec ==> !After(t, nowSec)
    ensures InstantToday(t.time) == nowSec + 1 ==> After(t, nowSec)
  {
  }

  /** `m` is the number of whole minutes from `nowSec` to `target`, the
      partial minute dropped. */
  ghost predicate WholeMinutesUntil(target: int, nowSec: int, m: int)
  {
    0 <= m && SecondsPerMinute * m <= target - nowSec < SecondsPerMinute * (m + 1)
  }

  /** `target.diff(now, "minute")`. */
  function DiffMinutes(target: int, nowSec: int): (m: int)
    ensures target >= nowSec ==> WholeMinutesUntil(target, nowSec, m)
    ensures target < nowSec ==> m <= 0
  {
    TruncDiv60(target - nowSec)
  }

  /** What the resolver reports: the name and the whole minutes until it. */
  datatype NextPrayer = NextPrayer(name: PrayerName, minutes: int)

  /** Every timing of today is at or before now. */
  ghost predicate NoneAfter(ts: seq<Timing>, nowSec: int)
  {
    forall j :: 0 <= j < |ts| ==> !After(ts[j], nowSec)
  }

  /** `i` is the first timing, in record order, strictly after now. */
  ghost predicate IsFirstAfter(ts: seq<Timing>, nowSec: int, i: int)
  {
    0 <= i < |ts| && After(ts[i], nowSec) && forall j :: 0 <= j < i ==> !After(ts[j], nowSec)
  }

  /** The walk of the timings record, stopping at the first timing strictly
      after now; None when the walk finds none. */
  function Upcoming(ts: seq<Timing>, nowSec: int): (r: Option<NextPrayer>)
    requires forall i :: 0 <= i < |ts| ==> ValidTime(ts[i].time)
    requires ValidNow(nowSec)
    ensures r.None? <==> NoneAfter(ts, nowSec)
    ensures r.Some? ==> exists i :: IsFirstAfter(ts, nowSec, i) && r.value.name == ts[i].name
                                    && WholeMinutesUntil(InstantToday(ts[i].time), nowSec, r.value.minutes)
    ensures r.Some? ==> r.value.minutes < MinutesPerDay
  {
    var after := (t: Timing) => After(t, nowSec);
    match FirstWhere(ts, after)
    case None => None
    case Some(i) =>
      assert IsFirstWhere(ts, after, i);
      assert IsFirstAfter(ts, nowSec, i);
      Some(NextPrayer(ts[i].name, DiffMinutes(InstantToday(ts[i].time), nowSec)))
  }

  /** The auto route's resolution: the first timing strictly after now, or,
      when the whole day has passed, Fajr of the following day. */
  function Resolve(ts: seq<Timing>, nowSec: int): (r: NextPrayer)
    requires IsDay(ts) && ValidNow(nowSec)
    ensures !NoneAfter(ts, nowSec) ==>
              exists i :: IsFirstAfter(ts, nowSec, i) && r.name == ts[i].name
                          && WholeMinutesUntil(InstantToday(ts[i].time), nowSec, r.minutes)
    ensures NoneAfter(ts, nowSec) ==>
              r.name == Fajr && WholeMinutesUntil(SecondsPerDay + InstantToday(ts[0].time), nowSec, r.minutes)
    ensures 0 <= r.minutes <= MinutesPerDay
  {
    match Upcoming(ts, nowSec)
    case Some(n) => n
    case None =>
      assert !After(ts[0], nowSec);
      NextPrayer(Fajr, DiffMinutes(SecondsPerDay + InstantToday(ts[0].time), nowSec))
  }

  /** Resolution only adds the rollover: whenever the walk finds a timing,
      that is the result. */
  lemma ResolveExtendsUpcoming(ts: seq<Timing>, nowSec: int)
    requires IsDay(ts) && ValidNow(nowSec)
    ensures Upcoming(ts, nowSec).Some? ==> Resolve(ts, nowSec) == Upcoming(ts, nowSec).value
    ensures Upcoming(ts, nowSec).None? ==> Resolve(ts, nowSec).name == Fajr
  {
  }

  /** When some timing is still ahead, the result is the first such timing in
      record order, and the minutes are counted to it. */
  lemma ResolveNormal(ts: seq<Timing>, nowSec: int)
    requires IsDay(ts) && ValidNow(nowSec) && !NoneAfter(ts, nowSec)
    ensures var r := Resolve(ts, nowSec);
            IsFirstAfter(ts, nowSec, Rank(r.name))
            && WholeMinutesUntil(InstantToday(ts[Rank(r.name)].time), nowSec, r.minutes)
  {
    var r := Resolve(ts, nowSec);
    var i :| IsFirstAfter(ts, nowSec, i) && r.name == ts[i].name
             && WholeMinutesUntil(InstantToday(ts[i].time), nowSec, r.minutes);
    RankOfOrder(i);
  }

  /** Once a timing ahead of now is found the walk stops: the result is never
      a later entry, and every earlier entry has passed. */
  lemma StopsAtFirst(ts: seq<Timing>, nowSec: int, i: int)
    requires IsDay(ts) && ValidNow(nowSec) && 0 <= i < |ts| && After(ts[i], nowSec)
    ensures Rank(Resolve(ts, nowSec).name) <= i
    ensures forall j :: 0 <= j < Rank(Resolve(ts, nowSec).name) ==> !After(ts[j], nowSec)
  {
    ResolveNormal(ts, nowSec);
  }

  /** A timing that falls exactly at now is not selected: its name can only
      come back as the rollover Fajr, a full day away. */
  lemma StrictBoundary(ts: seq<Timing>, nowSec: int, k: int)
    requires IsDay(ts) && ValidNow(nowSec) && 0 <= k < |ts|
    requires InstantToday(ts[k].time) == nowSec
    ensures Resolve(ts, nowSec).name == ts[k].name ==> k == 0 && Resolve(ts, nowSec).minutes == MinutesPerDay
  {
    var r := Resolve(ts, nowSec);
    if r.name == ts[k].name {
      RankOfOrder(k);
      if !NoneAfter(ts, nowSec) {
        ResolveNormal(ts, nowSec);
        assert false;
      }
    }
  }

  /** The timings ascend through the day, as the provider's do. */
  ghost predicate Chronological(ts: seq<Timing>)
  {
    forall j, k :: 0 <= j < k < |ts| ==> MinuteOfDay(ts[j].time) <= MinuteOfDay(ts[k].time)
  }

  /** Between two consecutive timings of an ascending day, the later one is next. */
  lemma BetweenConsecutive(ts: seq<Timing>, nowSec: int, i: int)
    requires IsDay(ts) && ValidNow(nowSec) && Chronological(ts)
    requires 0 <= i < |ts| - 1
    requires InstantToday(ts[i].time) <= nowSec < InstantToday(ts[i + 1].time)
    ensures Resolve(ts, nowSec).name == ts[i + 1].name
    ensures WholeMinutesUntil(InstantToday(ts[i + 1].time), nowSec, Resolve(ts, nowSec).minutes)
  {
    assert IsFirstAfter(ts, nowSec, i + 1) by {
      forall j | 0 <= j < i + 1
        ensures !After(ts[j], nowSec)
      {
        assert MinuteOfDay(ts[j].time) <= MinuteOfDay(ts[i].time);
      }
    }
    ResolveNormal(ts, nowSec);
    var r := Resolve(ts, nowSec);
    FirstWhereUnique(ts, (t: Timing) => After(t, nowSec), Rank(r.name), i + 1);
  }

  /** Before today's Fajr, today's Fajr is next and less than a day away. */
  lemma BeforeFajr(ts: seq<Timing>, nowSec: int)
    requires IsDay(ts) && ValidNow(nowSec)
    requires nowSec < InstantToday(ts[0].time)
    ensures Resolve(ts, nowSec).name == Fajr
    ensures WholeMinutesUntil(InstantToday(ts[0].time), nowSec, Resolve(ts, nowSec).minutes)
    ensures Resolve(ts, nowSec).minutes < MinutesPerDay
  {
    ResolveNormal(ts, nowSec);
    RankOfOrder(0);
  }

  /** At or after Isha of an ascending day, the result is Fajr, counted to
      tomorrow's date: never less than the minutes from midnight to Fajr and
      never more than a day. */
  lemma AfterIsha(ts: seq<Timing>, nowSec: int)
    requires IsDay(ts) && ValidNow(nowSec) && Chronological(ts)
    requires InstantToday(ts[|ts| - 1].time) <= nowSec
    ensures NoneAfter(ts, nowSec)
    ensures Resolve(ts, nowSec).name == Fajr
    ensures WholeMinutesUntil(SecondsPerDay + InstantToday(ts[0].time), nowSec, Resolve(ts, nowSec).minutes)
    ensures MinuteOfDay(ts[0].time) <= Resolve(ts, nowSec).minutes <= MinutesPerDay
  {
    forall j | 0 <= j < |ts|
      ensures !After(ts[j], nowSec)
    {
      if j < |ts| - 1 {
        assert MinuteOfDay(ts[j].time) <= MinuteOfDay(ts[|ts| - 1].time);
      }
    }
  }
}
