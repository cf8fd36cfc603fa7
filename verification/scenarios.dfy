/** A worked day: Fajr 04:30, Sunrise 05:50, Dhuhr 12:00, Asr 15:15,
    Maghrib 18:00, Isha 19:15. */
module Scenarios {
  import opened Wrappers
  import opened Prayer
  import opened ClockText
  import opened Resolver
  import opened Display
  import opened Routes

  function SampleDay(): map<string, string>
  {
    map["Fajr" := FormatTime(TimeOfDay(4, 30)), "Sunrise" := FormatTime(TimeOfDay(5, 50)),
        "Dhuhr" := FormatTime(TimeOfDay(12, 0)), "Asr" := FormatTime(TimeOfDay(15, 15)),
        "Maghrib" := FormatTime(TimeOfDay(18, 0)), "Isha" := FormatTime(TimeOfDay(19, 15))]
  }

  /** The timings the sample day reads as. */
  function SampleTimings(): seq<Timing>
  {
    [ Timing(Fajr, TimeOfDay(4, 30)), Timing(Sunrise, TimeOfDay(5, 50)), Timing(Dhuhr, TimeOfDay(12, 0)),
      Timing(Asr, TimeOfDay(15, 15)), Timing(Maghrib, TimeOfDay(18, 0)), Timing(Isha, TimeOfDay(19, 15)) ]
  }

  /** The sample day, as the provider would send it. */
  lemma SampleDayTexts()
    ensures SampleDay() == map["Fajr" := "04:30", "Sunrise" := "05:50", "Dhuhr" := "12:00",
                               "Asr" := "15:15", "Maghrib" := "18:00", "Isha" := "19:15"]
  {
    assert FormatTime(TimeOfDay(4, 30)) == "04:30" && FormatTime(TimeOfDay(5, 50)) == "05:50";
    assert FormatTime(TimeOfDay(12, 0)) == "12:00" && FormatTime(TimeOfDay(15, 15)) == "15:15";
    assert FormatTime(TimeOfDay(18, 0)) == "18:00" && FormatTime(TimeOfDay(19, 15)) == "19:15";
  }

  /** The record the routes copy out of the sample day holds each sample
      timing's clock text under its prayer. */
  lemma SampleSlots(i: int)
    requires 0 <= i < |Order|
    ensures TimingsRecord(SampleDay())[i] == Slot(Order[i], Some(FormatTime(SampleTimings()[i].time)))
  {
  }

  /** A slot holding the clock text of a valid time reads as that time. */
  lemma SlotOfFormat(s: Slot, t: TimeOfDay)
    requires ValidTime(t) && s.raw == Some(FormatTime(t))
    ensures Readable(s) && TimeOf(s) == t
  {
    ParseFormat(t);
  }

  /** Every slot of the sample record reads as the matching sample timing. */
  lemma SampleSlotsRead(i: int)
    requires 0 <= i < |Order|
    ensures var s := TimingsRecord(SampleDay())[i];
            Readable(s) && Timing(s.name, TimeOf(s)) == SampleTimings()[i]
  {
    SampleSlots(i);
    SlotOfFormat(TimingsRecord(SampleDay())[i], SampleTimings()[i].time);
  }

  /** The sample day's record reads, in full, as the sample timings. */
  lemma SampleRecord()
    ensures ReadAll(TimingsRecord(SampleDay())) == Some(SampleTimings())
  {
    var slots := TimingsRecord(SampleDay());
    forall i | 0 <= i < |slots|
      ensures Readable(slots[i]) && Timing(slots[i].name, TimeOf(slots[i])) == SampleTimings()[i]
    {
      SampleSlotsRead(i);
    }
    var r := ReadAll(slots).value;
    assert |r| == |SampleTimings()|;
    assert forall i :: 0 <= i < |slots| ==> r[i] == SampleTimings()[i];
    assert r == SampleTimings();
  }

  /** The sample timings form an ascending day. */
  lemma SampleIsDay()
    ensures IsDay(SampleTimings()) && Chronological(SampleTimings())
  {
  }

  /** 17:00 falls between Asr and Maghrib: Maghrib is next, an hour away. */
  lemma ResolveAtFivePm()
    ensures Resolve(SampleTimings(), 17 * 3600) == NextPrayer(Maghrib, 60)
  {
    SampleIsDay();
    BetweenConsecutive(SampleTimings(), 17 * 3600, 3);
  }

  /** 20:00 is after Isha: tomorrow's Fajr at 04:30 is 510 minutes away. */
  lemma ResolveAtEightPm()
    ensures Resolve(SampleTimings(), 20 * 3600) == NextPrayer(Fajr, 510)
  {
    SampleIsDay();
    AfterIsha(SampleTimings(), 20 * 3600);
  }

  /** The renderings of those two remaining times. */
  lemma SampleRenderings()
    ensures Render(HoursMinutes(60)) == "1h 0m"
    ensures Render(HoursMinutes(510)) == "8h 30m"
  {
    assert HoursMinutes(60) == Duration(1, 0);
    assert HoursMinutes(510) == Duration(8, 30);
    assert Decimal(1) == "1" && Decimal(0) == "0" && Decimal(8) == "8" && Decimal(3) == "3";
    assert Decimal(30) == "30";
  }

  /** The texts the auto route shows for the two sample answers. This lemma
      only splits the proof of `AutoExamples`: it turns the key and rendering
      into literal text apart from the payload's facts, which together exceed
      the solver's budget. */
  lemma SampleTexts(x: Result<AutoNext, Failure>, y: Result<AutoNext, Failure>)
    requires x == Ok(AutoNext(Key(Maghrib), Render(HoursMinutes(60))))
    requires y == Ok(AutoNext(Key(Fajr), Render(HoursMinutes(510))))
    ensures x == Ok(AutoNext("Maghrib", "1h 0m"))
    ensures y == Ok(AutoNext("Fajr", "8h 30m"))
  {
    SampleRenderings();
  }

  /** Whatever the provider's payload, once it reads as the sample day the
      auto route reports Maghrib in "1h 0m" at 17:00 and, rolling over,
      Fajr in "8h 30m" at 20:00. */
  lemma AutoExamples(upstream: map<string, string>)
    requires ReadAll(TimingsRecord(upstream)) == Some(SampleTimings())
    ensures AutoNextPrayer(upstream, 17 * 3600) == Ok(AutoNext("Maghrib", "1h 0m"))
    ensures AutoNextPrayer(upstream, 20 * 3600) == Ok(AutoNext("Fajr", "8h 30m"))
  {
    assert AutoNextPrayer(upstream, 17 * 3600) == Ok(AutoNext(Key(Maghrib), Render(HoursMinutes(60)))) by {
      AutoNextIsResolve(upstream, 17 * 3600);
      ResolveAtFivePm();
    }
    assert AutoNextPrayer(upstream, 20 * 3600) == Ok(AutoNext(Key(Fajr), Render(HoursMinutes(510)))) by {
      AutoNextIsResolve(upstream, 20 * 3600);
      ResolveAtEightPm();
    }
    SampleTexts(AutoNextPrayer(upstream, 17 * 3600), AutoNextPrayer(upstream, 20 * 3600));
  }

  /** Before Maghrib's hour the resolver's walk stops at Maghrib, so the
      explicit walk finds it too. */
  lemma UpcomingAtFivePm()
    ensures Upcoming(SampleTimings(), 17 * 3600) == Some(NextPrayer(Maghrib, 60))
  {
    SampleIsDay();
    ResolveAtFivePm();
    ResolveExtendsUpcoming(SampleTimings(), 17 * 3600);
  }

  /** The explicit route's answer once the walk over the read record is known. */
  lemma ExplicitFromUpcoming(upstream: map<string, string>, nowSec: int, n: NextPrayer)
    requires ValidNow(nowSec) && ReadAll(TimingsRecord(upstream)).Some?
    requires Upcoming(ReadAll(TimingsRecord(upstream)).value, nowSec) == Some(n)
    ensures ExplicitNextPrayer(upstream, nowSec) == ExplicitNext(Some(Key(n.name)), Some(n.minutes))
  {
    ExplicitIsUpcoming(upstream, nowSec);
  }

  /** The explicit route at 17:00 reports Maghrib with 60 minutes. */
  lemma ExplicitAtFivePm(upstream: map<string, string>)
    requires ReadAll(TimingsRecord(upstream)) == Some(SampleTimings())
    ensures ExplicitNextPrayer(upstream, 17 * 3600) == ExplicitNext(Some("Maghrib"), Some(60))
  {
    assert ExplicitNextPrayer(upstream, 17 * 3600) == ExplicitNext(Some(Key(Maghrib)), Some(60)) by {
      UpcomingAtFivePm();
      ExplicitFromUpcoming(upstream, 17 * 3600, NextPrayer(Maghrib, 60));
    }
    MaghribText(ExplicitNextPrayer(upstream, 17 * 3600));
  }

  /** The explicit answer naming Maghrib, with its key written out. This
      lemma only splits the proof of `ExplicitAtFivePm`, for the same reason
      as `SampleTexts`. */
  lemma MaghribText(e: ExplicitNext)
    requires e == ExplicitNext(Some(Key(Maghrib)), Some(60))
    ensures e == ExplicitNext(Some("Maghrib"), Some(60))
  {
  }

  /** The explicit route has no rollover: at 20:00 both fields are null. */
  lemma ExplicitAtEightPm(upstream: map<string, string>)
    requires ReadAll(TimingsRecord(upstream)) == Some(SampleTimings())
    ensures ExplicitNextPrayer(upstream, 20 * 3600) == ExplicitNext(None, None)
  {
    SampleIsDay();
    AfterIsha(SampleTimings(), 20 * 3600);
    ExplicitIsUpcoming(upstream, 20 * 3600);
  }

  /** The sample payload, written out, and the four answers for it. */
  lemma SampleDayAnswers()
    ensures SampleDay() == map["Fajr" := "04:30", "Sunrise" := "05:50", "Dhuhr" := "12:00",
                               "Asr" := "15:15", "Maghrib" := "18:00", "Isha" := "19:15"]
    ensures ExplicitNextPrayer(SampleDay(), 17 * 3600) == ExplicitNext(Some("Maghrib"), Some(60))
    ensures AutoNextPrayer(SampleDay(), 17 * 3600) == Ok(AutoNext("Maghrib", "1h 0m"))
    ensures ExplicitNextPrayer(SampleDay(), 20 * 3600) == ExplicitNext(None, None)
    ensures AutoNextPrayer(SampleDay(), 20 * 3600) == Ok(AutoNext("Fajr", "8h 30m"))
  {
    SampleRecord();
    ExplicitAtFivePm(SampleDay());
    ExplicitAtEightPm(SampleDay());
    AutoExamples(SampleDay());
    SampleDayTexts();
  }
}
