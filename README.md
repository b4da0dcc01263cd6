# Dernier metro: next-train calculator

A model of the simulated next-train service of the "dernier metro" HTTP server
(`server.js`). Given the local time of day and a headway, the calculator decides
whether the metro is running. When it is closed it answers `{service: "closed", tz}`.
When it is running it answers the headway, the `HH:MM` time of the next train,
whether that train is the last of the night, and the time-zone label.
The `/next-metro` handler validates the `station` query value. It calls the
calculator with a headway of 3 minutes and shapes a 200 reply (closed or open)
or a 400.

Time is a local time of day in milliseconds, `TimeOfDay = [0, 86_400_000)`, and
a day is exactly 24 hours long. The three `setHours` targets of the calculator
(05:30, 00:45 and 01:15, with seconds and milliseconds zeroed) are placed on the
same day as `now`. Comparing those `Date` values is therefore comparing times of
day, which is what the model does.

Modules, one per concern of `server.js`:

- `Decimal` (decimal.dfy): `String(n)` for integers `0 <= n < 2^53`, `padStart` with
  the fill `"0"`, and the reading of a digit string as a number.
- `Clock` (clock.dfy): time of day, `setHours`, `getHours`/`getMinutes`, `pad2`
  and `toHM`. `ParseHM` reads `HH:MM` back and is the partner of `toHM`.
- `Arrival` (arrival.dfy): the calculator as written (`NextArrival`) and with
  its documented window (`IntendedNextArrival`).
- `Server` (server.dfy): the `/next-metro` decision, `/health` and the 404
  catch-all.
- `Json`, `Optional` (json.dfy, optional.dfy): reply bodies as ordered JSON
  members, and an optional value for a query parameter that may be absent.

The calculator as written is never open. The test at server.js:28 is
`now < start || now > end`, and end (01:15 today) comes before start (05:30
today). So every instant is before the start or after the end. `Arrival.NeverOpen`
proves it for every time of day and headway. `Server.AsWrittenAlwaysClosedReply`
carries it to the handler. The open-branch properties (formatting, `isLast`,
wrap past midnight) are proved about `Arrival.IntendedNextArrival`, which opens
exactly when `now >= start || now <= end`, the window "05:30 → 01:15" of the
doc comment at server.js:14. Whenever the as-written calculator does open, it
agrees with the intended one (the ensures of `Arrival.NextArrival`).

Where descriptions of the service differ from the code, the model follows the code:

- The time-zone member is named `tz`, not `timezone`.
- Bounds are exact to the millisecond. 01:15:00.000 is in the window and
  01:15:00.001 is not, so only the first millisecond of minute 75 is open
  (`Arrival.ServiceWindowInMinutes`).
- The calculator does not reject a zero or negative headway. The arrival is
  simply `now + headwayMin` minutes, which wraps around the day either way.

## Model

Predicates and helpers that stand for single source expressions have no row of their own. The rows of the members and lemmas built on them cover them:

- `Clock.HourOf` is `getHours()` (server.js:9).
- `Arrival.OutOfHours` is the test `now < start || now > end` (server.js:28).
- `Arrival.InLastWindow` is `now >= lastWindow && now <= end` (server.js:37).
- `Arrival.Advance` is the local time of day of `new Date(now.getTime() + headwayMin * 60 * 1000)` (server.js:32).
- `Arrival.ToObject` gives the object literals of server.js:29 and server.js:34-39.
- `Arrival.OpenResult` is the open-branch object literal (server.js:32-39).
- `Arrival.InService` is the documented window "05:30 → 01:15" (server.js:14), the corrected counterpart of the test at server.js:28.
- `Server.Truthy` is the negation of `!station` (server.js:168).

| member | source | states |
|---|---|---|
| `Decimal.DecimalString` | server.js:5 | `String(n)` is a non-empty digit string with no leading zero; it has one digit exactly when n < 10 and at most two exactly when n < 100 |
| `Decimal.DecimalStringRoundTrip` | server.js:5 | reading `String(n)` back as a decimal gives n |
| `Decimal.PadStartZeroKeepsValue` | server.js:5 | `padStart` with zeros keeps a digit string a digit string of the same value |
| `Decimal.TwoPlaces` | server.js:5 | below 100, `String(n).padStart(2, "0")` is the tens digit followed by the units digit |
| `Clock.Pad2` | server.js:4-6 | `pad2(n)` is a digit string that reads back as n; it has at least two characters, and exactly two iff n <= 99; above 99 it is `String(n)` unpadded |
| `Clock.Pad2Digits` | server.js:4-6 | for n <= 99, `pad2(n)` is the tens digit followed by the units digit |
| `Clock.Pad2OfTwoDigits` | server.js:4-6 | every two-digit string is the `pad2` of the number it denotes, so `pad2` on 0..99 is onto the two-digit strings |
| `Clock.MinuteOfDay` | server.js:9 | the whole minutes since midnight, below 1440, with the time falling inside that minute |
| `Clock.MinuteOf` | server.js:9 | `getMinutes()` is below 60, and hours * 60 + minutes is the minute of the day |
| `Clock.ClockTime` | server.js:21-25 | `setHours(h, m, s, ms)` leaves a time whose hour is h, whose minute is m and whose remainder within the minute is s seconds and ms milliseconds |
| `Clock.ToHM` | server.js:8-10 | `toHM` is five characters with ':' at index 2; the two fields are digit strings that read back as the hour (0-23) and the minute (0-59) |
| `Clock.ToHMRoundTrip` | server.js:8-10 | `HH:MM` reads back as exactly the minute of the day of the time printed |
| `Clock.ParseHMRoundTrip` | server.js:8-10 | every text that reads as `HH:MM` is the `toHM` of the minute it reads as, so `toHM` on minutes is a bijection onto valid `HH:MM` texts |
| `Clock.ToHMSameIffSameMinute` | server.js:8-10 | two times print alike iff they fall in the same minute of the day |
| `Arrival.NextArrival` | server.js:19-40 | the calculator as written: every result carries tz = "Europe/Paris", a closed result has no other member, and an open result would equal the documented calculator's |
| `Arrival.NeverOpen` | server.js:20-30 | for every time of day and headway, the test `now < start` or `now > end` holds and the result is `{service: "closed", tz}` |
| `Arrival.ClosedAtSixAsWritten` | server.js:14-28 | 06:00 is in the documented window and the documented calculator is open there, yet the calculator as written returns closed |
| `Arrival.AsWrittenAgreesIffOutOfService` | server.js:14-30 | the calculator as written equals the documented one exactly at the times outside the 05:30 → 01:15 window |
| `Arrival.IntendedNextArrival` | server.js:32-38 | in an open result the headway is the input unchanged and tz is the label; `nextArrival` reads back as the current minute plus the headway modulo 1440, so it wraps past midnight; a closed result has only tz |
| `Arrival.AdvanceMinute` | server.js:32-36 | the arrival's clock minute is the current clock minute plus the headway, modulo a day |
| `Arrival.ServiceWindowInMinutes` | server.js:14-28 | the documented window is minutes 330 to 1439, minutes 0 to 74, and 01:15:00.000 itself |
| `Arrival.IsLastIffLastWindow` | server.js:22-37 | `isLast` is true iff `now` is from 00:45:00.000 to 01:15:00.000 inclusive, whatever the arrival; the last-train window lies inside the service window |
| `Arrival.BoundariesToTheMillisecond` | server.js:21-28 | 01:15:00.000 is not after the end but 01:15:00.001 is; 05:29:59.999 is before the start but 05:30:00.000 is not; the last-train window starts at 00:45:00.000, not 00:44:59.999 |
| `Arrival.ClosedObjectShape` | server.js:28-30 | the closed object has exactly the members `service: "closed"` and `tz`, and no `headwayMin` |
| `Arrival.ScenarioMorning` | server.js:32-38 | at 06:00 with headway 3: open, "06:03", not last |
| `Arrival.ScenarioLastTrain` | server.js:32-38 | at 00:50 with headway 3: open, "00:53", last |
| `Arrival.ScenarioNight` | server.js:28-30 | at 02:00: closed |
| `Arrival.ScenarioPastMidnight` | server.js:32-38 | at 23:59 with headway 3 the arrival wraps to "00:02" |
| `Server.NextMetro` | server.js:166-186 | status 400 with `{error: "missing station"}` iff station is missing or empty; otherwise 200 with the station echoed first, then `service: "closed"` and tz for a closed result, or the line "M1" followed by the calculator's members for an open one |
| `Server.MissingStationIgnoresCalculator` | server.js:167-170 | a missing or empty station gives the same 400 reply whatever the calculator would say |
| `Server.OpenReply` | server.js:178-185 | with the documented window, the open reply is station, line "M1", headway 3, an `HH:MM` three minutes after the current minute, the current last-train flag and tz, in that order |
| `Server.AsWrittenAlwaysClosedReply` | server.js:166-176 | with the calculator as written, every GET `/next-metro` with a station gets 200 `{station, service: "closed", tz}` |
| `Server.Route` | server.js:159-191 | `/docs` and GET `/api-docs.json` go to the documentation endpoints; GET `/health` gets `{status: "ok"}`; GET `/next-metro` gets the handler's reply for the calculator's result at `now` with headway 3; every other request gets 404 `{error: "not found"}` |
| `Server.UnknownPathNotFound` | server.js:188-191 | GET `/unknown-path` gets 404 `{error: "not found"}`, whatever the query and the time |
| `Server.MissingStationRoute` | server.js:166-170 | GET `/next-metro` with a missing or empty station gets 400 `{error: "missing station"}` at every time |
| `Server.HealthAlwaysOk` | server.js:163-165 | GET `/health` answers 200 `{status: "ok"}` at every time, whatever the query |

## Findings

| source | as written | input that shows it | evidently intended | confidence | as-written member | corrected member |
|---|---|---|---|---|---|---|
| server.js:20-30 | the test `now < start` or `now > end` with start (05:30) and end (01:15) both set on now's own calendar day, so the test is true at every instant and the service is always closed | 06:00:00.000 (and every other time of day) | open from 05:30 through midnight to 01:15, i.e. closed only when `end < now < start` (the window of the doc comment at server.js:14) | high; not executed | `Arrival.NeverOpen` (witness `Arrival.ClosedAtSixAsWritten`) | `Arrival.IntendedNextArrival` |

## Left out

- The Express application, the request-logging middleware and its `console.log` timing (server.js:42-52): I/O with no effect on replies.
- The OpenAPI document and the `/docs` and `/api-docs.json` endpoints (server.js:54-160). They serve static data through a foreign library, so `Server.Route` returns None for them.
- Server start-up and the port taken from `PORT` (server.js:193-197).
- The wall clock read by `new Date()` in the handler (server.js:171). The time of day is an input of `Server.Route`, and the calculator's result is an input of `Server.NextMetro`.
- The default arguments of `nextArrival` (`now = new Date()`, `headwayMin = 3`). The handler always passes both.
- JavaScript `Date` local-time semantics: daylight-saving days of 23 or 25 hours, and the range limit of `Date`. A day is a fixed 86 400 000 ms. `TZ` is only a label and is never applied to the clock, so it is not applied here either.
- Express routing details: repeated or array-valued `station` parameters (`station` is an optional string), case-insensitive paths, trailing slashes, and HEAD requests answered by GET routes.
- `Arrival.NextArrival`: the headway is an integer. A fractional or non-numeric JavaScript headway is not modelled.
- `Clock.Pad2`: defined for integers `n >= 0` only. It is only called with hours and minutes.
- `Decimal.DecimalString`: JavaScript prints the exact digits of an integer only below 2^53. Above that it prints the shortest digits that read back as the same double, so `String(2**65)` does not read back as 2^65. From 1e21 it uses exponent form (`"1e+21"`). The model's unbounded naturals always print exact digits. `pad2` only ever receives 0..59, so the program never reaches these values.
