/**
 * The simulated next-train calculator of the "dernier metro" service.
 *
 * `NextArrival` is the calculator exactly as server.js writes it: the start,
 * last-train and end bounds are all placed on the calendar day of `now`, so the
 * end (01:15) lies before the start (05:30) and the out-of-hours test holds at
 * every instant. `IntendedNextArrival` is the calculator with the window its
 * own doc comment describes, 05:30 to 01:15 the next morning, wrapping past
 * midnight; the open-branch properties are proved about it.
 */
module Arrival {
  import opened Optional
  import opened Json
  import opened Clock

  /** The time-zone label carried by every result; it is never applied to the clock. */
  const TZ := "Europe/Paris"

  /** `start.setHours(5, 30, 0, 0)`: 05:30:00.000 on the day of `now`. */
  const Start: TimeOfDay := ClockTime(5, 30, 0, 0)

  /** `lastWindow.setHours(0, 45, 0, 0)`: 00:45:00.000 on the day of `now`. */
  const LastWindow: TimeOfDay := ClockTime(0, 45, 0, 0)

  /** `end.setHours(1, 15, 0, 0)`: 01:15:00.000 on the day of `now`. */
  const End: TimeOfDay := ClockTime(1, 15, 0, 0)

  /** The two shapes of the calculator's result. */
  datatype ArrivalResult =
    | Closed(tz: string)
    | Open(headwayMin: int, nextArrival: string, isLast: bool, tz: string)

  /** The JavaScript object the calculator returns for `r`, member by member. */
  function ToObject(r: ArrivalResult): Object
  {
    match r
    case Closed(tz) => [("service", Str("closed")), ("tz", Str(tz))]
    case Open(headwayMin, nextArrival, isLast, tz) =>
      [("headwayMin", Int(headwayMin)), ("nextArrival", Str(nextArrival)), ("isLast", Bool(isLast)), ("tz", Str(tz))]
  }

  /** The out-of-hours test as written: before the start or after the end, both on today's date. */
  predicate OutOfHours(now: TimeOfDay)
  {
    now < Start || now > End
  }

  /** The documented service window: from 05:30 through midnight until 01:15 inclusive. */
  predicate InService(now: TimeOfDay)
  {
    now >= Start || now <= End
  }

  /** The last-train window, 00:45:00.000 to 01:15:00.000 inclusive. */
  predicate InLastWindow(now: TimeOfDay)
  {
    LastWindow <= now <= End
  }

  /** The time of day `headwayMin` minutes after `now`, as the arrival `Date`'s local clock reads it. */
  function Advance(now: TimeOfDay, headwayMin: int): TimeOfDay
  {
    (now + headwayMin * 60_000) % 86_400_000
  }

  /** The result of the open branch. */
  function OpenResult(now: TimeOfDay, headwayMin: int): ArrivalResult
  {
    Open(headwayMin, ToHM(Advance(now, headwayMin)), InLastWindow(now), TZ)
  }

  /** `nextArrival(now, headwayMin)` exactly as written. */
  function NextArrival(now: TimeOfDay, headwayMin: int): (r: ArrivalResult)
    ensures r.tz == TZ
    ensures r.Closed? ==> r == Closed(TZ)
    ensures r.Open? ==> r == IntendedNextArrival(now, headwayMin)
  {
    if OutOfHours(now) then Closed(TZ) else OpenResult(now, headwayMin)
  }

  /** The calculator with the documented window, wrapping past midnight. */
  function IntendedNextArrival(now: TimeOfDay, headwayMin: int): (r: ArrivalResult)
    ensures r.tz == TZ
    ensures r.Closed? ==> r == Closed(TZ)
    ensures r.Open? ==> r.headwayMin == headwayMin
    ensures r.Open? ==> ParseHM(r.nextArrival) == Some((MinuteOfDay(now) + headwayMin) % MinutesPerDay)
  {
    if InService(now) then
      AdvanceMinute(now, headwayMin);
      ToHMRoundTrip(Advance(now, headwayMin));
      OpenResult(now, headwayMin)
    else Closed(TZ)
  }

  /** The arrival's clock minute is the current minute plus the headway, modulo a day. */
  lemma AdvanceMinute(now: TimeOfDay, headwayMin: int)
    ensures MinuteOfDay(Advance(now, headwayMin)) == (MinuteOfDay(now) + headwayMin) % MinutesPerDay
  {
    var q, r := now / 60_000, now % 60_000;
    var j, k := (q + headwayMin) / 1440, (q + headwayMin) % 1440;
    assert now + headwayMin * 60_000 == (q + headwayMin) * 60_000 + r;
    assert (q + headwayMin) * 60_000 == j * 86_400_000 + k * 60_000;
    assert Advance(now, headwayMin) == k * 60_000 + r;
  }

  /**
   * The defect: because the end (01:15) precedes the start (05:30) on the same
   * day, every instant is before the start or after the end, so the calculator
   * as written is closed at every time of day and for every headway.
   */
  lemma NeverOpen(now: TimeOfDay, headwayMin: int)
    ensures OutOfHours(now)
    ensures NextArrival(now, headwayMin) == Closed(TZ)
  {
    assert End < Start;
  }

  /** A concrete witness: at 06:00, inside the documented window, the calculator as written says closed. */
  lemma ClosedAtSixAsWritten()
    ensures InService(ClockTime(6, 0, 0, 0))
    ensures NextArrival(ClockTime(6, 0, 0, 0), 3) == Closed(TZ)
    ensures IntendedNextArrival(ClockTime(6, 0, 0, 0), 3).Open?
  {
  }

  /** The calculator as written agrees with the documented one exactly outside service hours. */
  lemma AsWrittenAgreesIffOutOfService(now: TimeOfDay, headwayMin: int)
    ensures NextArrival(now, headwayMin) == IntendedNextArrival(now, headwayMin) <==> !InService(now)
  {
    NeverOpen(now, headwayMin);
  }

  /**
   * The documented window in clock minutes: open from minute 330 (05:30) to the end
   * of the day and from midnight through minute 74, and at 01:15:00.000 itself;
   * the rest of minute 75 (01:15:00.001 onwards) is already closed.
   */
  lemma ServiceWindowInMinutes(now: TimeOfDay, headwayMin: int)
    ensures IntendedNextArrival(now, headwayMin).Open? <==>
      MinuteOfDay(now) >= 330 || MinuteOfDay(now) < 75 || now == ClockTime(1, 15, 0, 0)
  {
    var m := MinuteOfDay(now);
    assert Start == 330 * 60_000 && End == 75 * 60_000;
    assert m * 60_000 <= now < m * 60_000 + 60_000;
    if m >= 330 {
      assert now >= Start;
    } else if m < 75 {
      assert now < End;
    } else {
      assert m * 60_000 >= 75 * 60_000 && m * 60_000 + 60_000 <= 330 * 60_000;
    }
  }

  /**
   * `isLast` reflects the current moment, not the computed arrival: it is true
   * exactly from 00:45:00.000 to 01:15:00.000 inclusive, and the last-train
   * window lies inside the service window.
   */
  lemma IsLastIffLastWindow(now: TimeOfDay, headwayMin: int)
    ensures InLastWindow(now) ==> InService(now)
    ensures IntendedNextArrival(now, headwayMin).Open? ==>
      (IntendedNextArrival(now, headwayMin).isLast <==> 45 * 60_000 <= now <= 75 * 60_000)
  {
  }

  /** Times compare to the millisecond, because `setHours` zeroes the seconds and milliseconds. */
  lemma BoundariesToTheMillisecond()
    ensures !(ClockTime(1, 15, 0, 0) > End) && ClockTime(1, 15, 0, 1) > End
    ensures ClockTime(5, 29, 59, 999) < Start && !(ClockTime(5, 30, 0, 0) < Start)
    ensures InService(ClockTime(1, 15, 0, 0)) && !InService(ClockTime(1, 15, 0, 1))
    ensures !InService(ClockTime(5, 29, 59, 999)) && InService(ClockTime(5, 30, 0, 0))
    ensures InLastWindow(ClockTime(0, 45, 0, 0)) && !InLastWindow(ClockTime(0, 44, 59, 999))
  {
  }

  /** The object of a closed result has exactly the members `service: "closed"` and `tz`. */
  lemma ClosedObjectShape(now: TimeOfDay, headwayMin: int)
    ensures Keys(ToObject(NextArrival(now, headwayMin))) == ["service", "tz"]
    ensures Lookup(ToObject(NextArrival(now, headwayMin)), "service") == Some(Str("closed"))
    ensures Lookup(ToObject(NextArrival(now, headwayMin)), "tz") == Some(Str(TZ))
    ensures Lookup(ToObject(NextArrival(now, headwayMin)), "headwayMin").None?
  {
    NeverOpen(now, headwayMin);
    var o := ToObject(Closed(TZ));
    assert Keys(o) == ["service", "tz"];
  }

  /** 06:00 with headway 3: open, next train "06:03", not the last. */
  lemma ScenarioMorning()
    ensures IntendedNextArrival(ClockTime(6, 0, 0, 0), 3) == Open(3, "06:03", false, TZ)
  {
    assert Advance(ClockTime(6, 0, 0, 0), 3) == ClockTime(6, 3, 0, 0);
    Pad2Digits(6);
    Pad2Digits(3);
  }

  /** 00:50 with headway 3: open, next train "00:53", the last one. */
  lemma ScenarioLastTrain()
    ensures IntendedNextArrival(ClockTime(0, 50, 0, 0), 3) == Open(3, "00:53", true, TZ)
  {
    assert Advance(ClockTime(0, 50, 0, 0), 3) == ClockTime(0, 53, 0, 0);
    Pad2Digits(0);
    Pad2Digits(53);
  }

  /** 02:00: closed. */
  lemma ScenarioNight()
    ensures IntendedNextArrival(ClockTime(2, 0, 0, 0), 3) == Closed(TZ)
  {
  }

  /** 23:59 with headway 3: the arrival wraps past midnight to "00:02". */
  lemma ScenarioPastMidnight()
    ensures IntendedNextArrival(ClockTime(23, 59, 0, 0), 3) == Open(3, "00:02", false, TZ)
  {
    assert Advance(ClockTime(23, 59, 0, 0), 3) == ClockTime(0, 2, 0, 0);
    Pad2Digits(0);
    Pad2Digits(2);
  }
}
