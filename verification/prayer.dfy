/** The vocabulary of a day of prayer timings: the six names, their fixed
    order, the time-of-day values and the timings record. */
module Prayer {

  /** The six timings the server reads from the upstream provider. */
  datatype PrayerName = Fajr | Sunrise | Dhuhr | Asr | Maghrib | Isha

  /** The order of the keys of the timings record, which is also the order in
      which both routes walk it. */
  const Order: seq<PrayerName> := [Fajr, Sunrise, Dhuhr, Asr, Maghrib, Isha]

  /** The position of a name in the walk order. */
  function Rank(p: PrayerName): (i: nat)
    ensures i < |Order| && Order[i] == p
  {
    match p
    case Fajr => 0
    case Sunrise => 1
    case Dhuhr => 2
    case Asr => 3
    case Maghrib => 4
    case Isha => 5
  }

  /** Every position of the order holds a different name. */
  lemma RankOfOrder(i: int)
    requires 0 <= i < |Order|
    ensures Rank(Order[i]) == i
  {
  }

  /** The JSON key under which the upstream provider and the response carry a name. */
  function Key(p: PrayerName): string
  {
    match p
    case Fajr => "Fajr"
    case Sunrise => "Sunrise"
    case Dhuhr => "Dhuhr"
    case Asr => "Asr"
    case Maghrib => "Maghrib"
    case Isha => "Isha"
  }

  /** The six keys a response may name as the next prayer. */
  const Keys: set<string> := set p: PrayerName :: Key(p)

  /** An hour and a minute of the day; the upstream provider has no seconds. */
  datatype TimeOfDay = TimeOfDay(hour: int, minute: int)

  predicate ValidTime(t: TimeOfDay)
  {
    0 <= t.hour < 24 && 0 <= t.minute < 60
  }

  /** Minutes elapsed since midnight at `t`. */
  function MinuteOfDay(t: TimeOfDay): (m: int)
    ensures ValidTime(t) ==> 0 <= m < 24 * 60
  {
    60 * t.hour + t.minute
  }

  /** One entry of the timings record: a name and when it falls today. */
  datatype Timing = Timing(name: PrayerName, time: TimeOfDay)

  /** A complete day: one valid timing per name, in the walk order. */
  predicate IsDay(ts: seq<Timing>)
  {
    |ts| == |Order| && forall i :: 0 <= i < |ts| ==> ts[i].name == Order[i] && ValidTime(ts[i].time)
  }
}
