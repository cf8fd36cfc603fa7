/** The two request handlers of the server, reduced to their logic: choosing
    how to ask the provider, building the timings record, and computing the
    next prayer each route reports. The provider and the geolocation lookup
    are parameters; the clock reading is the `nowSec` parameter. */
module Routes {
  import opened Wrappers
  import opened Prayer
  import opened ClockText
  import opened Search
  import opened Resolver
  import opened Display

  /** The query string of `/prayer-times`; an absent parameter is None. */
  datatype Query = Query(city: Option<string>, country: Option<string>,
                         lat: Option<string>, long: Option<string>, calcMethod: Option<string>)

  /** JavaScript truthiness of a query parameter: present and non-empty. */
  predicate Truthy(v: Option<string>): (b: bool)
    ensures v.None? ==> !b
    ensures v == Some("") ==> !b
    ensures v.Some? && v.value != "" ==> b
  {
    v.Some? && |v.value| > 0
  }

  /** The calculation method the provider is asked for when none is given. */
  const DefaultMethod: string := "2"

  /** The destructuring default applies only to an absent parameter. */
  function MethodOf(q: Query): (m: string)
    ensures q.calcMethod.None? ==> m == DefaultMethod
    ensures q.calcMethod.Some? ==> m == q.calcMethod.value
  {
    match q.calcMethod
    case None => DefaultMethod
    case Some(m) => m
  }

  /** How the provider is asked for today's timings. */
  datatype Mode =
    | ByCoordinates(lat: string, long: string, calcMethod: string)
    | ByCity(city: string, country: string, calcMethod: string)

  /** An error response: the HTTP status and the message of its JSON body. */
  datatype Failure = Failure(status: int, message: string)

  const MissingLocation: Failure := Failure(400, "Please provide either lat & long or city & country")
  const FetchFailed: Failure := Failure(500, "Failed to fetch prayer times")
  const AutoFailed: Failure := Failure(500, "Failed to auto-detect prayer times")

  /** Coordinates win over city and country; city and country are used only
      when the coordinates are incomplete; with neither pair complete the
      request is refused with a 400. */
  function SelectMode(q: Query): (r: Result<Mode, Failure>)
    ensures (r.Ok? && r.value.ByCoordinates?) <==> Truthy(q.lat) && Truthy(q.long)
    ensures (r.Ok? && r.value.ByCity?) <==>
              !(Truthy(q.lat) && Truthy(q.long)) && Truthy(q.city) && Truthy(q.country)
    ensures r.Err? ==> r.error == MissingLocation
    ensures r.Ok? && r.value.ByCoordinates? ==>
              r.value.lat == q.lat.value && r.value.long == q.long.value && r.value.calcMethod == MethodOf(q)
    ensures r.Ok? && r.value.ByCity? ==>
              r.value.city == q.city.value && r.value.country == q.country.value && r.value.calcMethod == MethodOf(q)
  {
    if Truthy(q.lat) && Truthy(q.long) then Ok(ByCoordinates(q.lat.value, q.long.value, MethodOf(q)))
    else if Truthy(q.city) && Truthy(q.country) then Ok(ByCity(q.city.value, q.country.value, MethodOf(q)))
    else Err(MissingLocation)
  }

  /** One key of the timings record: the name and the provider's raw text,
      None when the provider's payload lacks the key. */
  datatype Slot = Slot(name: PrayerName, raw: Option<string>)

  function Lookup(upstream: map<string, string>, key: string): Option<string>
  {
    if key in upstream then Some(upstream[key]) else None
  }

  /** The six-key record both routes copy out of the provider's timings. */
  function TimingsRecord(upstream: map<string, string>): (slots: seq<Slot>)
    ensures |slots| == |Order|
    ensures forall i :: 0 <= i < |slots| ==>
              slots[i].name == Order[i] && slots[i].raw == Lookup(upstream, Key(Order[i]))
  {
    [ Slot(Fajr, Lookup(upstream, "Fajr")),
      Slot(Sunrise, Lookup(upstream, "Sunrise")),
      Slot(Dhuhr, Lookup(upstream, "Dhuhr")),
      Slot(Asr, Lookup(upstream, "Asr")),
      Slot(Maghrib, Lookup(upstream, "Maghrib")),
      Slot(Isha, Lookup(upstream, "Isha")) ]
  }

  /** The slot holds text that reads as a time of day. */
  predicate Readable(s: Slot)
  {
    s.raw.Some? && ParseTime(s.raw.value).Some?
  }

  function TimeOf(s: Slot): (t: TimeOfDay)
    requires Readable(s)
    ensures ValidTime(t)
  {
    ParseTime(s.raw.value).value
  }

  /** Every slot of the record reads exactly when the provider supplied a
      readable value under every one of the six keys. */
  lemma RecordReadable(upstream: map<string, string>)
    ensures (forall i :: 0 <= i < |Order| ==> Readable(TimingsRecord(upstream)[i])) <==>
            (forall p: PrayerName :: Key(p) in upstream && ParseTime(upstream[Key(p)]).Some?)
  {
    var slots := TimingsRecord(upstream);
    if forall i :: 0 <= i < |Order| ==> Readable(slots[i]) {
      forall p: PrayerName
        ensures Key(p) in upstream && ParseTime(upstream[Key(p)]).Some?
      {
        assert Readable(slots[Rank(p)]);
      }
    }
  }

  /** The timings of a record whose every slot reads, or None. */
  function ReadAll(slots: seq<Slot>): (r: Option<seq<Timing>>)
    ensures r.Some? <==> forall i :: 0 <= i < |slots| ==> Readable(slots[i])
    ensures r.Some? ==> |r.value| == |slots|
    ensures r.Some? ==> forall i :: 0 <= i < |slots| ==> r.value[i] == Timing(slots[i].name, TimeOf(slots[i]))
  {
    if forall i :: 0 <= i < |slots| ==> Readable(slots[i]) then
      Some(seq(|slots|, i requires 0 <= i < |slots| => Timing(slots[i].name, TimeOf(slots[i]))))
    else None
  }

  /** A record that reads in full holds, at each prayer's position, that
      prayer with the time its provider value reads as. */
  lemma ReadRecord(upstream: map<string, string>)
    ensures var r := ReadAll(TimingsRecord(upstream));
            r.Some? ==> IsDay(r.value)
                        && forall p: PrayerName :: Key(p) in upstream && ParseTime(upstream[Key(p)]).Some?
                                                   && r.value[Rank(p)] == Timing(p, ParseTime(upstream[Key(p)]).value)
  {
    var slots := TimingsRecord(upstream);
    var r := ReadAll(slots);
    if r.Some? {
      forall p: PrayerName
        ensures Key(p) in upstream && ParseTime(upstream[Key(p)]).Some?
                && r.value[Rank(p)] == Timing(p, ParseTime(upstream[Key(p)]).value)
      {
        assert Readable(slots[Rank(p)]);
      }
    }
  }

  /** The explicit route's test of one slot. Text that does not read gives an
      invalid date, and an invalid date is after nothing. */
  predicate SlotAfter(s: Slot, nowSec: int): (b: bool)
    ensures b ==> Readable(s)
  {
    Readable(s) && After(Timing(s.name, TimeOf(s)), nowSec)
  }

  /** `i` is the first slot, in record order, strictly after now. */
  ghost predicate IsFirstSlotAfter(slots: seq<Slot>, nowSec: int, i: int)
  {
    0 <= i < |slots| && SlotAfter(slots[i], nowSec) && forall j :: 0 <= j < i ==> !SlotAfter(slots[j], nowSec)
  }

  /** The `nextPrayer` object of `/prayer-times`; both fields stay null when
      nothing is left today. */
  datatype ExplicitNext = ExplicitNext(prayer: Option<string>, minutesUntil: Option<int>)

  /** The explicit route's walk: the first timing strictly after now, with no
      rollover to the next day. */
  function ExplicitNextPrayer(upstream: map<string, string>, nowSec: int): (r: ExplicitNext)
    requires ValidNow(nowSec)
    ensures r.prayer.None? <==> r.minutesUntil.None?
    ensures r.prayer.None? <==> forall j :: 0 <= j < |Order| ==> !SlotAfter(TimingsRecord(upstream)[j], nowSec)
    ensures r.prayer.Some? ==> r.prayer.value in Keys
    ensures r.prayer.Some? ==>
              exists i :: IsFirstSlotAfter(TimingsRecord(upstream), nowSec, i)
                          && r.prayer.value == Key(Order[i])
                          && WholeMinutesUntil(InstantToday(TimeOf(TimingsRecord(upstream)[i])), nowSec, r.minutesUntil.value)
    ensures r.minutesUntil.Some? ==> 0 <= r.minutesUntil.value < MinutesPerDay
  {
    var slots := TimingsRecord(upstream);
    var after := (s: Slot) => SlotAfter(s, nowSec);
    match FirstWhere(slots, after)
    case None => ExplicitNext(None, None)
    case Some(i) =>
      assert IsFirstWhere(slots, after, i);
      assert IsFirstSlotAfter(slots, nowSec, i);
      ExplicitNext(Some(Key(slots[i].name)), Some(DiffMinutes(InstantToday(TimeOf(slots[i])), nowSec)))
  }

  /** The `nextPrayer` object of `/prayer-times/auto`. */
  datatype AutoNext = AutoNext(name: string, remaining: string)

  /** The auto route's walk with the after-Isha rollover and the "<h>h <m>m"
      rendering. A record with a value that does not read is an error. */
  function AutoNextPrayer(upstream: map<string, string>, nowSec: int): (r: Result<AutoNext, Failure>)
    requires ValidNow(nowSec)
    ensures r.Ok? <==> forall p: PrayerName :: Key(p) in upstream && ParseTime(upstream[Key(p)]).Some?
    ensures r.Err? ==> r.error == AutoFailed
    ensures r.Ok? ==> r.value.name in Keys
  {
    RecordReadable(upstream);
    match ReadAll(TimingsRecord(upstream))
    case None => Err(AutoFailed)
    case Some(ts) =>
      var n := Resolve(ts, nowSec);
      Ok(AutoNext(Key(n.name), Render(HoursMinutes(n.minutes))))
  }

  /** The hours and minutes the auto route shows recombine to the resolver's
      minutes, in the normal case and after the rollover alike, and never
      show more than a day. */
  lemma RemainingSplit(ts: seq<Timing>, nowSec: int)
    requires IsDay(ts) && ValidNow(nowSec)
    ensures var m := Resolve(ts, nowSec).minutes;
            var d := HoursMinutes(m);
            && 60 * d.hours + d.minutes == m
            && 0 <= d.minutes <= 59
            && 0 <= d.hours <= 24
            && (d.hours == 24 ==> d.minutes == 0)
  {
  }

  /** On a record that reads in full, the auto route's answer is the
      resolver's result, named by its key and rendered. */
  lemma AutoNextIsResolve(upstream: map<string, string>, nowSec: int)
    requires ValidNow(nowSec)
    requires ReadAll(TimingsRecord(upstream)).Some?
    ensures IsDay(ReadAll(TimingsRecord(upstream)).value)
    ensures var n := Resolve(ReadAll(TimingsRecord(upstream)).value, nowSec);
            AutoNextPrayer(upstream, nowSec) == Ok(AutoNext(Key(n.name), Render(HoursMinutes(n.minutes))))
  {
  }

  /** The auto route's remaining time reads back as hours and minutes with
      the minutes below sixty and the total at most a day. */
  lemma AutoRemainingReads(upstream: map<string, string>, nowSec: int)
    requires ValidNow(nowSec)
    requires AutoNextPrayer(upstream, nowSec).Ok?
    ensures ReadRendered(AutoNextPrayer(upstream, nowSec).value.remaining).Some?
    ensures var d := ReadRendered(AutoNextPrayer(upstream, nowSec).value.remaining).value;
            0 <= d.minutes < 60 && 0 <= 60 * d.hours + d.minutes <= MinutesPerDay
  {
    RecordReadable(upstream);
    AutoNextIsResolve(upstream, nowSec);
    var n := Resolve(ReadAll(TimingsRecord(upstream)).value, nowSec);
  }

  /** On a record that reads, a slot is after now exactly when its timing is. */
  lemma SlotAfterIsAfter(slots: seq<Slot>, nowSec: int, j: int)
    requires ReadAll(slots).Some? && 0 <= j < |slots|
    ensures After(ReadAll(slots).value[j], nowSec) <==> SlotAfter(slots[j], nowSec)
  {
  }

  /** On a record that reads in full, the explicit route reports what the
      shared walk finds, and null exactly where the walk finds nothing. */
  lemma ExplicitIsUpcoming(upstream: map<string, string>, nowSec: int)
    requires ValidNow(nowSec)
    requires ReadAll(TimingsRecord(upstream)).Some?
    ensures var e := ExplicitNextPrayer(upstream, nowSec);
            match Upcoming(ReadAll(TimingsRecord(upstream)).value, nowSec)
            case None => e == ExplicitNext(None, None)
            case Some(n) => e == ExplicitNext(Some(Key(n.name)), Some(n.minutes))
  {
    var slots := TimingsRecord(upstream);
    var ts := ReadAll(slots).value;
    assert IsDay(ts);
    forall j | 0 <= j < |ts|
      ensures After(ts[j], nowSec) <==> SlotAfter(slots[j], nowSec)
    {
      SlotAfterIsAfter(slots, nowSec, j);
    }
    var e := ExplicitNextPrayer(upstream, nowSec);
    var u := Upcoming(ts, nowSec);
    if e.prayer.Some? {
      var i :| IsFirstSlotAfter(slots, nowSec, i) && e.prayer.value == Key(Order[i])
               && WholeMinutesUntil(InstantToday(TimeOf(slots[i])), nowSec, e.minutesUntil.value);
      assert IsFirstAfter(ts, nowSec, i);
      var k :| IsFirstAfter(ts, nowSec, k) && u.value.name == ts[k].name
               && WholeMinutesUntil(InstantToday(ts[k].time), nowSec, u.value.minutes);
      FirstWhereUnique(ts, (t: Timing) => After(t, nowSec), i, k);
    }
  }

  /** When every timing reads, the auto route answers; the explicit route is
      null exactly where no timing is ahead; where it names a prayer the auto
      route names the same one with the same remaining time, and where it is
      null the auto route rolls over to tomorrow's Fajr. */
  lemma RoutesAgree(upstream: map<string, string>, nowSec: int)
    requires ValidNow(nowSec)
    requires ReadAll(TimingsRecord(upstream)).Some?
    ensures AutoNextPrayer(upstream, nowSec).Ok?
    ensures var ts := ReadAll(TimingsRecord(upstream)).value;
            var e := ExplicitNextPrayer(upstream, nowSec);
            var a := AutoNextPrayer(upstream, nowSec).value;
            && (e.prayer.None? <==> NoneAfter(ts, nowSec))
            && (e.prayer.Some? ==> e.prayer.value == a.name
                                   && a.remaining == Render(HoursMinutes(e.minutesUntil.value)))
            && (e.prayer.None? ==> a.name == Key(Fajr)
                                   && a.remaining == Render(HoursMinutes(DiffMinutes(SecondsPerDay + InstantToday(ts[0].time), nowSec))))
  {
    RecordReadable(upstream);
    AutoNextIsResolve(upstream, nowSec);
    ExplicitIsUpcoming(upstream, nowSec);
    ResolveExtendsUpcoming(ReadAll(TimingsRecord(upstream)).value, nowSec);
  }

  /** The `/prayer-times` response: the timings record and the next prayer. */
  datatype ExplicitBody = ExplicitBody(timings: seq<Slot>, next: ExplicitNext)

  /** GET /prayer-times. `fetch` answers the provider request for a mode with
      the payload's timings, or None for any answer the handler cannot use:
      a failed request, or a payload lacking a calendar field the response
      copies (`data.date.hijri.month.en`, `data.date.gregorian.weekday.en`). */
  function PrayerTimesRoute(q: Query, fetch: Mode -> Option<map<string, string>>, nowSec: int)
    : (r: Result<ExplicitBody, Failure>)
    requires ValidNow(nowSec)
    ensures r == Err(MissingLocation) <==> SelectMode(q).Err?
    ensures r.Err? ==> r.error == MissingLocation || r.error == FetchFailed
    ensures r.Ok? <==> SelectMode(q).Ok? && fetch(SelectMode(q).value).Some?
    ensures r.Ok? ==> r.value.timings == TimingsRecord(fetch(SelectMode(q).value).value)
                      && r.value.next == ExplicitNextPrayer(fetch(SelectMode(q).value).value, nowSec)
  {
    match SelectMode(q)
    case Err(f) => Err(f)
    case Ok(mode) =>
      match fetch(mode)
      case None => Err(FetchFailed)
      case Some(upstream) => Ok(ExplicitBody(TimingsRecord(upstream), ExplicitNextPrayer(upstream, nowSec)))
  }

  /** A request with neither pair complete is refused before the provider is
      asked: the answer does not depend on what the provider would say. */
  lemma NoFetchWithoutLocation(q: Query, f: Mode -> Option<map<string, string>>,
                               g: Mode -> Option<map<string, string>>, nowSec: int)
    requires ValidNow(nowSec)
    requires !(Truthy(q.lat) && Truthy(q.long)) && !(Truthy(q.city) && Truthy(q.country))
    ensures PrayerTimesRoute(q, f, nowSec) == PrayerTimesRoute(q, g, nowSec) == Err(MissingLocation)
  {
  }

  /** The city and country the geolocation lookup reports for the server's
      own public address: the lookup is made without the caller's address. */
  datatype Location = Location(city: string, country: string)

  /** The `/prayer-times/auto` response. */
  datatype AutoBody = AutoBody(location: Location, timings: seq<Slot>, next: AutoNext)

  /** GET /prayer-times/auto. `located` is the geolocation answer (None when
      the lookup fails) and `fetch` the provider's answer for a city, or None
      for any answer the handler cannot use: a failed request, a payload
      without `meta`, a `meta.timezone` that dayjs rejects, or a payload
      lacking a calendar field the response copies. Every failure becomes the
      same 500 response. */
  function AutoRoute(located: Option<Location>, fetch: Location -> Option<map<string, string>>, nowSec: int)
    : (r: Result<AutoBody, Failure>)
    requires ValidNow(nowSec)
    ensures r.Err? ==> r.error == AutoFailed
    ensures r.Ok? <==> located.Some? && fetch(located.value).Some?
                       && forall p: PrayerName :: Key(p) in fetch(located.value).value
                                                  && ParseTime(fetch(located.value).value[Key(p)]).Some?
    ensures r.Ok? ==> r.value.location == located.value
                      && r.value.timings == TimingsRecord(fetch(located.value).value)
                      && r.value.next == AutoNextPrayer(fetch(located.value).value, nowSec).value
  {
    match located
    case None => Err(AutoFailed)
    case Some(loc) =>
      match fetch(loc)
      case None => Err(AutoFailed)
      case Some(upstream) =>
        match AutoNextPrayer(upstream, nowSec)
        case Err(f) => Err(f)
        case Ok(next) => Ok(AutoBody(loc, TimingsRecord(upstream), next))
  }
}
