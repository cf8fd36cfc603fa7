# Next-prayer resolver of the Adhan prayer-times server

The server in `Backend/Adhan/server.js` answers two requests.

- `GET /prayer-times` takes a location, either as coordinates or as a city and country, and asks an upstream provider for today's timings. It copies six of them into a fixed record: Fajr, Sunrise, Dhuhr, Asr, Maghrib and Isha. It then walks that record in order and reports the first prayer strictly after now, with the whole minutes until it. When the day is over it reports `null`.
- `GET /prayer-times/auto` asks a geolocation service for the city of the server's own public address (the lookup carries no caller address), fetches the timings the same way and walks the same record. When nothing is left today it falls back to tomorrow's Fajr. It reports the remaining time as `"<h>h <m>m"`.

This project models that logic as pure functions and proves what it computes.

Time is one shared day frame:
- "now" is a number of seconds since today's midnight, in `[0, 86400)`;
- a timing falls at its hour and minute with the seconds zeroed;
- tomorrow's Fajr is today's Fajr plus 86400 seconds.

JavaScript's arithmetic is written out explicitly:
- `Math.floor(d / 60)` is `JsArith.FloorDiv60`;
- `d % 60` takes the sign of the dividend, and is `JsArith.JsRem60`;
- dayjs's `diff(..., "minute")` also truncates toward zero, and is `Resolver.DiffMinutes`.

Modules:
- `Wrappers`: Option and Result.
- `Prayer`: names, order and times of day.
- `JsArith`: JavaScript division and remainder by 60.
- `ClockText`: `split`, reading "HH:MM", and decimal rendering.
- `Search`: the walk that breaks at the first match.
- `Resolver`: the next prayer, with and without rollover.
- `Display`: the `"<h>h <m>m"` split and rendering.
- `Routes`: mode selection, the timings record and the two handlers.
- `Scenarios`: a worked sample day.

Nothing in the code checks that the timings ascend through the day. The lemmas that rely on it, `Resolver.BetweenConsecutive` and `Resolver.AfterIsha`, take it as a hypothesis (`Resolver.Chronological`). The code truncates the difference to whole minutes, so a prayer less than a minute away is reported with 0 minutes. `Resolver.WholeMinutesUntil` allows 0 accordingly.

## Model

| member | source | states |
|---|---|---|
| Search.FirstWhere | Backend/Adhan/server.js:111-123 | the walk finds nothing exactly when no entry passes the test; otherwise it stops at the first entry that passes and every earlier entry fails |
| Resolver.AfterIsStrict | Backend/Adhan/server.js:115 | `isAfter` is strict: a timing falling exactly at now is not after it, and one a second later is |
| Resolver.DiffMinutes | Backend/Adhan/server.js:113-117 | for a target at or after now, the result is the number of whole minutes between them with the partial minute dropped; for an earlier target it is never positive |
| Resolver.Upcoming | Backend/Adhan/server.js:111-123 | the result is absent exactly when no timing is strictly after now; otherwise it names the first timing in record order strictly after now, with the whole minutes to it, which are under a day |
| Resolver.Resolve | Backend/Adhan/server.js:111-134 | when some timing is still ahead, the result is the first one with the minutes to it; when none is, it is Fajr, counted to today's Fajr plus one day; the minutes always lie in 0..1440 |
| Resolver.ResolveExtendsUpcoming | Backend/Adhan/server.js:125-134 | the rollover only applies when the walk finds nothing; otherwise the auto route's answer is the walk's answer |
| Resolver.ResolveNormal | Backend/Adhan/server.js:111-122 | when a timing is ahead, the named prayer's position is the first position strictly after now, and the minutes are counted to that timing |
| Resolver.StopsAtFirst | Backend/Adhan/server.js:115-121 | once any timing is ahead, the answer is never a later entry, and every entry before the answer has already passed |
| Resolver.StrictBoundary | Backend/Adhan/server.js:115 | a timing falling exactly at now is not selected; its name comes back only as the rollover Fajr, a full 1440 minutes away |
| Resolver.BetweenConsecutive | Backend/Adhan/server.js:111-122 | on an ascending day, between two consecutive timings the later one is next, with the whole minutes to it |
| Resolver.BeforeFajr | Backend/Adhan/server.js:111-122 | before today's Fajr, today's Fajr is next and less than a day away |
| Resolver.AfterIsha | Backend/Adhan/server.js:126-134 | at or after Isha no timing is ahead; the answer is Fajr, counted to tomorrow's Fajr, at least the minutes from midnight to Fajr and at most a day |
| JsArith.FloorDiv60 | Backend/Adhan/server.js:118 | `Math.floor(d / 60)`: the quotient q with 60q <= d < 60q + 60, for either sign |
| JsArith.TruncDiv60 | Backend/Adhan/server.js:117 | truncating division by 60: the remainder takes the sign of the dividend and is under 60 in size |
| JsArith.JsRem60 | Backend/Adhan/server.js:119 | JavaScript's `%` by 60: d = 60 * trunc(d / 60) + r, with r in 0..59 for d >= 0 and in -59..0 for d < 0 |
| Display.HoursMinutes | Backend/Adhan/server.js:117-119 | for a non-negative difference, the hours and minutes are non-negative, the minutes are below 60, and 60h + m recombines to the difference |
| Display.Render | Backend/Adhan/server.js:120 | the `${h}h ${m}m` text of non-negative hours and minutes reads back as the same hours and minutes |
| ClockText.Decimal | Backend/Adhan/server.js:120 | a template literal's rendering of a non-negative integer is a run of digits with no leading zero that denotes that integer |
| ClockText.SplitJoin | Backend/Adhan/server.js:112 | `split` returns separator-free fields that rejoin with the separator to the original text |
| ClockText.SplitField | Backend/Adhan/server.js:112 | splitting a separator-free field followed by the separator and a rest gives that field, then the rest's fields |
| ClockText.ParseTime | Backend/Adhan/server.js:112 | `split(":")` followed by reading the first two fields as numbers only ever yields a valid time of day; `ClockText.ParseFormat` is its round-trip partner |
| ClockText.ParseFormat | Backend/Adhan/server.js:112 | reading the "HH:MM" text of a valid time of day with `split(":")` gives that time back |
| ClockText.ParseIgnoresExtraFields | Backend/Adhan/server.js:112 | only the first two fields are read: a trailing ":..." does not change the time |
| Prayer.Rank | Backend/Adhan/server.js:35-42 | each name has one position in the record order Fajr, Sunrise, Dhuhr, Asr, Maghrib, Isha |
| Routes.Truthy | Backend/Adhan/server.js:24-26 | JavaScript truthiness of a query parameter: an absent one and the empty string are falsy, every other string is truthy |
| Routes.MethodOf | Backend/Adhan/server.js:21 | the destructuring default: method 2 only when the parameter is absent, otherwise the given text, even an empty one |
| Routes.SelectMode | Backend/Adhan/server.js:21-30 | coordinates are used exactly when lat and long are both truthy; city and country exactly when the coordinates are incomplete and both are truthy; otherwise the 400 error; the method defaults to 2 only when absent |
| Routes.NoFetchWithoutLocation | Backend/Adhan/server.js:24-32 | with neither pair complete the answer is the 400 error whatever the provider would return, so the provider is never consulted |
| Routes.PrayerTimesRoute | Backend/Adhan/server.js:18-80 | the 400 error exactly when mode selection fails; a successful response exactly when the provider gives a usable answer, carrying the record and the explicit walk's answer; any other failure is the 500 "Failed to fetch prayer times" |
| Routes.TimingsRecord | Backend/Adhan/server.js:35-42 | the record has the six names in walk order, each holding the provider's value under its key, or nothing when the key is missing |
| Routes.RecordReadable | Backend/Adhan/server.js:95-102 | every slot of the record reads exactly when the provider supplied a readable value under every one of the six keys |
| Routes.ReadRecord | Backend/Adhan/server.js:95-112 | a record that reads in full is a well-formed day holding, at each prayer's position, that prayer and the time its provider value reads as |
| Routes.SlotAfter | Backend/Adhan/server.js:49-54 | only a readable value can be after now: text that `ClockText.ParseTime` does not read is treated as an invalid date, which is after nothing |
| Routes.SlotAfterIsAfter | Backend/Adhan/server.js:49-54 | on a record that reads, a slot is after now exactly when its timing is |
| Routes.ExplicitNextPrayer | Backend/Adhan/server.js:44-59 | both fields are null together, and exactly when no slot is strictly after now; otherwise the prayer is one of the six keys, the first slot strictly after now, with the whole minutes to it, under a day |
| Routes.ExplicitIsUpcoming | Backend/Adhan/server.js:48-59 | on a record that reads, the explicit route reports what the shared walk finds, and null exactly where the walk finds nothing |
| Routes.AutoNextPrayer | Backend/Adhan/server.js:104-134 | an answer exactly when all six values are present and readable, otherwise the 500 "Failed to auto-detect prayer times"; the answer's name is one of the six keys |
| Routes.AutoNextIsResolve | Backend/Adhan/server.js:111-134 | on a record that reads, the record is a well-formed day and the auto answer is the resolver's result, named by its key and rendered |
| Routes.RemainingSplit | Backend/Adhan/server.js:126-133 | the hours and minutes shown recombine to the resolver's minutes, with minutes in 0..59 and hours in 0..24, and 24 hours only with 0 minutes |
| Routes.AutoRemainingReads | Backend/Adhan/server.js:129-133 | the remaining-time text of any auto answer reads back as hours and minutes, with the minutes below 60 and the total at most a day |
| Routes.RoutesAgree | Backend/Adhan/server.js:48-59 | when every value reads, the auto route answers; the explicit route is null exactly when no timing is ahead; where it names a prayer the auto route names the same prayer with the same remaining time; where it is null the auto route names Fajr, counted to tomorrow's Fajr |
| Routes.AutoRoute | Backend/Adhan/server.js:82-154 | every failure, from the lookup, the provider or an unreadable value, is the same 500; a success carries the detected location, the provider's record and the auto route's next prayer |
| Scenarios.ResolveAtFivePm | Backend/Adhan/server.js:111-122 | on the sample day, 17:00 lies between Asr and Maghrib, so Maghrib is next and 60 minutes away |
| Scenarios.ResolveAtEightPm | Backend/Adhan/server.js:126-134 | on the sample day, 20:00 is after Isha, so tomorrow's Fajr at 04:30 is next and 510 minutes away |
| Scenarios.AutoExamples | Backend/Adhan/server.js:104-134 | any payload that reads as the sample day gets "Maghrib" in "1h 0m" at 17:00 and "Fajr" in "8h 30m" at 20:00 |
| Scenarios.ExplicitAtFivePm | Backend/Adhan/server.js:48-59 | any payload that reads as the sample day gets Maghrib with 60 minutes from the explicit route at 17:00 |
| Scenarios.ExplicitAtEightPm | Backend/Adhan/server.js:45-59 | the explicit route has no rollover: at 20:00 on the sample day both fields are null |
| Scenarios.SampleDayAnswers | Backend/Adhan/server.js:44-134 | the sample payload is the texts "04:30", "05:50", "12:00", "15:15", "18:00" and "19:15", and the two routes give these four answers on it |

## Left out

- Express routing, CORS, the root health route, status and JSON writes, logging and port binding (lines 11-16, 74-78, 149-157) are I/O plumbing.
- The HTTP calls to the timings provider and to the geolocation service (lines 25-32, 84-92) are parameters. `fetch` is the provider's answer for a mode or a city, and `located` is the lookup's answer. `fetch` gives None for any answer the handler cannot use, not only a failed request. Both routes return their 500 for such answers: a payload lacking a calendar field the response copies (`data.date.hijri.month.en`, `data.date.gregorian.weekday.en`; lines 63-66, 139-140). The auto route also returns its 500 for a payload without `meta` (line 104) and for a `meta.timezone` that dayjs's `tz` rejects (line 105). Those payload checks are not modelled separately; they are folded into `fetch`. URL building and the `Date.now()` timestamp in the coordinates URL are not modelled.
- Timezones and DST are not modelled: the dayjs timezone resolution and the `Asia/Jakarta` fallback (lines 44, 104-105). Both routes use one shared day frame, given as the `nowSec` parameter.
- The first route parses its timings without `.tz` but compares them with a Jakarta "now" (lines 44-52). The model puts both in the same frame.
- The response's calendar metadata, a field-for-field copy of the provider's date (lines 61-73, 136-147), is not modelled.
- Query parameters given as arrays are not modelled; a parameter is absent or one string.
- Resolver.StrictBoundary: "now" is whole seconds. In the source, each timing comes from a separate clock read (line 113) whose milliseconds survive `.second(0)`. A timing in the current second can therefore be counted as ahead by a millisecond margin.
- Routes.AutoNextPrayer: any absent or unreadable value is the 500 error. The source returns the 500 only for a value the walk reaches (lines 112-113, 127-128) that is absent or has no ':'. Without a minute field, `minute(undefined)` is dayjs's getter, which returns a number, and `.second(0)` on it throws. A value with a ':' whose fields `Number` turns into NaN gives an invalid date: the walk skips it, and as tomorrow's Fajr it renders "NaNh NaNm".
- ClockText.ParseTime: reads only digit runs as numbers. JavaScript's `Number` also accepts surrounding spaces, signs and an empty field (read as 0). dayjs lets an hour above 23 or a minute above 59 spill into the next unit. Such values are unreadable here.
- Routes.ExplicitNextPrayer: reads each value with `ClockText.ParseTime`, the auto route's `split(":")` reading. The source instead hands `` `${date} ${time}` `` to dayjs's own string parser (lines 49-52); the format argument is ignored because no format plugin is loaded (lines 5-9). That parser keeps a seconds field, so "04:30:15" falls at 04:30:15 where the model puts it at 04:30. It also reads "0430" and "4" as 04:30 and 04:00, which the model finds unreadable.
- Routes.ExplicitNextPrayer: "now" is whole seconds. The source's now (line 44) keeps the clock's milliseconds, while route 1's timing has none. When now's seconds are 0 and its milliseconds are not, the source counts one minute fewer: 59 from 17:00:00.250 to 18:00, where the model says 60.
- Routes.ExplicitIsUpcoming: equates route 1's minutes with the shared walk's over whole-second time. With now's milliseconds the source's route 1 is one minute lower when now's seconds are 0 and its milliseconds are not.
- Routes.RoutesAgree: "the same remaining time" holds over whole-second time. In the source, route 2's timing carries the milliseconds of a later clock read (line 113) and route 1's carries none. At 17:00:00.250 route 1 says 59 minutes to an 18:00 Maghrib while route 2 says "1h 0m".
- Routes.SlotAfter: treats text that `ClockText.ParseTime` does not read as an invalid date. Route 1's dayjs string parser (lines 49-54) reads more. It reads "0430" and "4" as 04:30 and 04:00, so on a payload holding `Fajr: "0430"` the source reports Fajr at 03:00 where the model skips it.
- Routes.AutoRoute: its success condition inherits `Routes.AutoNextPrayer`'s policy, so it fails on any absent or unreadable value of the six. The source (lines 111-134) succeeds whenever the walk never reaches the bad value. A payload without "Isha" answers Fajr at 03:00, because the walk breaks at Fajr first. A value like "ab:cd" that the walk reaches is skipped as an invalid date rather than failing.
