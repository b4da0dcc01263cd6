/**
 * Local time of day, in milliseconds since midnight, and its 24-hour "HH:MM" text.
 * A day is taken to be exactly 24 hours long (no daylight-saving shifts), so a
 * `Date`'s local hours and minutes are functions of its time of day alone.
 */
module Clock {
  import opened Optional
  import opened Decimal

  const MsPerMinute: nat := 60_000
  const MinutesPerDay: nat := 1440
  const MsPerDay: nat := 86_400_000

  type TimeOfDay = t: int | 0 <= t < 86_400_000

  /** Whole minutes elapsed since midnight. */
  function MinuteOfDay(t: TimeOfDay): (m: nat)
    ensures m < MinutesPerDay
    ensures m * 60_000 <= t < m * 60_000 + 60_000
  {
    t / 60_000
  }

  /** `getHours()`. */
  function HourOf(t: TimeOfDay): (h: nat)
    ensures h < 24
  {
    MinuteOfDay(t) / 60
  }

  /** `getMinutes()`. */
  function MinuteOf(t: TimeOfDay): (m: nat)
    ensures m < 60
    ensures HourOf(t) * 60 + m == MinuteOfDay(t)
  {
    MinuteOfDay(t) % 60
  }

  /**
   * The time of day a `Date` is left at by `setHours(h, m, s, ms)` with in-range
   * arguments: the same calendar day at h:m:s.ms.
   */
  function ClockTime(h: nat, m: nat, s: nat, ms: nat): (t: TimeOfDay)
    requires h < 24 && m < 60 && s < 60 && ms < 1000
    ensures HourOf(t) == h && MinuteOf(t) == m
    ensures t - MinuteOfDay(t) * 60_000 == s * 1000 + ms
  {
    (h * 60 + m) * 60_000 + (s * 1000 + ms)
  }

  /** `pad2(n)`, that is `String(n).padStart(2, "0")`. */
  function Pad2(n: nat): (s: string)
    ensures AllDigits(s) && DecimalValue(s) == n
    ensures |s| >= 2
    ensures |s| == 2 <==> n <= 99
    ensures n > 99 ==> s == DecimalString(n)
  {
    DecimalStringRoundTrip(n);
    PadStartZeroKeepsValue(DecimalString(n), 2);
    PadStartZero(DecimalString(n), 2)
  }

  /** Below 100, `pad2` spells out the tens digit and the units digit. */
  lemma Pad2Digits(n: nat)
    requires n <= 99
    ensures Pad2(n) == [DigitChar(n / 10), DigitChar(n % 10)]
  {
    TwoPlaces(n);
  }

  /** Every two-digit string is the `pad2` of the number it denotes. */
  lemma Pad2OfTwoDigits(s: string)
    requires |s| == 2 && AllDigits(s)
    ensures DecimalValue(s) <= 99 && Pad2(DecimalValue(s)) == s
  {
    var d0, d1 := DigitValue(s[0]), DigitValue(s[1]);
    DecimalValueOfTwo(s);
    var v := DecimalValue(s);
    assert v / 10 == d0 && v % 10 == d1;
    Pad2Digits(v);
    DigitCharOfValue(s[0]);
    DigitCharOfValue(s[1]);
  }

  /** The two fields of "a:b" are found again by slicing around the colon. */
  lemma JoinedFields(a: string, b: string)
    ensures (a + ":" + b)[..|a|] == a && (a + ":" + b)[|a|] == ':' && (a + ":" + b)[|a| + 1..] == b
  {
  }

  /** `toHM(date)`: the time of day as zero-padded 24-hour "HH:MM". */
  function ToHM(t: TimeOfDay): (s: string)
    ensures |s| == 5 && s[2] == ':'
    ensures AllDigits(s[..2]) && DecimalValue(s[..2]) == HourOf(t)
    ensures AllDigits(s[3..]) && DecimalValue(s[3..]) == MinuteOf(t)
  {
    JoinedFields(Pad2(HourOf(t)), Pad2(MinuteOf(t)));
    Pad2(HourOf(t)) + ":" + Pad2(MinuteOf(t))
  }

  /** Reads "HH:MM" back as minutes since midnight; None for any other text. */
  function ParseHM(s: string): Option<nat>
  {
    if |s| == 5 && s[2] == ':' && AllDigits(s[..2]) && AllDigits(s[3..]) then
      var h, m := DecimalValue(s[..2]), DecimalValue(s[3..]);
      if h < 24 && m < 60 then Some(h * 60 + m) else None
    else None
  }

  /** "HH:MM" keeps exactly the minute of the day: it reads back as that minute. */
  lemma ToHMRoundTrip(t: TimeOfDay)
    ensures ParseHM(ToHM(t)) == Some(MinuteOfDay(t))
  {
    var s := ToHM(t);
    var h, m := DecimalValue(s[..2]), DecimalValue(s[3..]);
    assert h == HourOf(t) && m == MinuteOf(t);
    assert ParseHM(s) == Some(h * 60 + m);
  }

  /** Every text ParseHM accepts is the "HH:MM" of the minute it reads as. */
  lemma ParseHMRoundTrip(s: string)
    requires ParseHM(s).Some?
    ensures ParseHM(s).value < MinutesPerDay
    ensures ToHM(ParseHM(s).value * MsPerMinute) == s
  {
    var h, m := DecimalValue(s[..2]), DecimalValue(s[3..]);
    Pad2OfTwoDigits(s[..2]);
    Pad2OfTwoDigits(s[3..]);
    var t: TimeOfDay := ClockTime(h, m, 0, 0);
    assert t == (h * 60 + m) * MsPerMinute;
    assert ToHM(t) == s[..2] + ":" + s[3..];
    assert s == s[..2] + ":" + s[3..];
  }

  /** Two times of day print alike exactly when they fall in the same minute. */
  lemma ToHMSameIffSameMinute(t: TimeOfDay, u: TimeOfDay)
    ensures ToHM(t) == ToHM(u) <==> MinuteOfDay(t) == MinuteOfDay(u)
  {
    ToHMRoundTrip(t);
    ToHMRoundTrip(u);
    if MinuteOfDay(t) == MinuteOfDay(u) {
      assert HourOf(t) == HourOf(u) && MinuteOf(t) == MinuteOf(u);
    }
  }
}
