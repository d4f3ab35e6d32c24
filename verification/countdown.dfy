/** The landing page's countdown (`calculateTimeLeft` in src/pages/Home.jsx,
    repeated unchanged in src/pages/Home_new.jsx and src/pages/Home_backup.jsx):
    the milliseconds left until the event, split into days, hours, minutes and
    seconds. The clock reading is an input: `difference` is the event time less
    the current time, in whole milliseconds. */
module Countdown {
  const SecondMs := 1000
  const MinuteMs := 60 * SecondMs
  const HourMs := 60 * MinuteMs
  const DayMs := 24 * HourMs

  datatype TimeLeft = TimeLeft(days: int, hours: int, minutes: int, seconds: int)

  /** The state the page starts from. */
  const Zero := TimeLeft(0, 0, 0, 0)

  /** JavaScript's `%`: the remainder takes the sign of the dividend. */
  function JsRem(a: int, b: int): (r: int)
    requires b > 0
    ensures a >= 0 ==> 0 <= r < b
    ensures a >= 0 ==> r == a % b
  {
    if a >= 0 then a % b else -((-a) % b)
  }

  /** `Math.floor(a / b)`; for a positive divisor this is Dafny's `/`. */
  function FloorDiv(a: int, b: int): (q: int)
    requires b > 0
    ensures q * b <= a < q * b + b
  {
    a / b
  }

  /** The milliseconds a time-left value stands for. */
  function Millis(t: TimeLeft): int {
    t.days * DayMs + t.hours * HourMs + t.minutes * MinuteMs + t.seconds * SecondMs
  }

  /** A well-formed time left: whole units, each below the next unit up. */
  predicate InRange(t: TimeLeft) {
    t.days >= 0 && 0 <= t.hours < 24 && 0 <= t.minutes < 60 && 0 <= t.seconds < 60
  }

  /** One tick: a positive difference is split into units; once the event time
      has passed the previous value stays. */
  function Tick(prev: TimeLeft, difference: int): (r: TimeLeft)
    ensures difference <= 0 ==> r == prev
    ensures difference > 0 ==> InRange(r)
  {
    if difference > 0 then
      TimeLeft(
        FloorDiv(difference, DayMs),
        FloorDiv(JsRem(difference, DayMs), HourMs),
        FloorDiv(JsRem(difference, HourMs), MinuteMs),
        FloorDiv(JsRem(difference, MinuteMs), SecondMs))
    else prev
  }

  /** The days are the whole days in the difference. */
  lemma TickDays(prev: TimeLeft, difference: int)
    requires difference > 0
    ensures Tick(prev, difference).days == difference / DayMs
    ensures Tick(prev, difference).days * DayMs <= difference < (Tick(prev, difference).days + 1) * DayMs
  {
  }

  /** Each unit is the matching digit of the difference in its mixed radix. */
  lemma TickDigits(prev: TimeLeft, difference: int)
    requires difference > 0
    ensures Tick(prev, difference).hours == (difference / HourMs) % 24
    ensures Tick(prev, difference).minutes == (difference / MinuteMs) % 60
    ensures Tick(prev, difference).seconds == (difference / SecondMs) % 60
  {
    var t := Tick(prev, difference);
    assert t.hours == (difference % DayMs) / HourMs;
    HoursDigit(difference);
    assert t.minutes == (difference % HourMs) / MinuteMs;
    MinutesDigit(difference);
    assert t.seconds == (difference % MinuteMs) / SecondMs;
    SecondsDigit(difference);
  }

  lemma HoursDigit(d: int)
    requires d > 0
    ensures (d % 86400000) / 3600000 == (d / 3600000) % 24
  {
  }

  lemma MinutesDigit(d: int)
    requires d > 0
    ensures (d % 3600000) / 60000 == (d / 60000) % 60
  {
  }

  lemma SecondsDigit(d: int)
    requires d > 0
    ensures (d % 60000) / 1000 == (d / 1000) % 60
  {
  }

  /** Putting the units back together loses less than a second. */
  lemma TickRecomposes(prev: TimeLeft, difference: int)
    requires difference > 0
    ensures Millis(Tick(prev, difference)) <= difference < Millis(Tick(prev, difference)) + SecondMs
    ensures Millis(Tick(prev, difference)) == difference / SecondMs * SecondMs
  {
    var t := Tick(prev, difference);
    TickDigits(prev, difference);
    DivChain(difference);
    var s := difference / 1000;
    MixedRadix(s);
    assert t.days == s / 60 / 60 / 24;
    assert Millis(t) == s * 1000;
  }

  /** A count of seconds is its days, hours, minutes and seconds put back together. */
  lemma MixedRadix(s: int)
    requires s >= 0
    ensures (s / 60 / 60 / 24) * 86400 + (s / 60 / 60 % 24) * 3600 + (s / 60 % 60) * 60 + s % 60 == s
  {
    var m := s / 60;
    var h := m / 60;
    assert s == m * 60 + s % 60;
    assert m == h * 60 + m % 60;
    assert h == (h / 24) * 24 + h % 24;
  }

  /** The split is the only well-formed time left that recomposes to the
      difference within a second. */
  lemma TickUnique(prev: TimeLeft, difference: int, t: TimeLeft)
    requires difference > 0 && InRange(t)
    requires Millis(t) <= difference < Millis(t) + SecondMs
    ensures t == Tick(prev, difference)
  {
    var s := t.days * 86400 + t.hours * 3600 + t.minutes * 60 + t.seconds;
    assert difference / 1000 == s;
    SecondsSplit(s, t.days, t.hours, t.minutes, t.seconds);
    DivChain(difference);
    TickDigits(prev, difference);
  }

  /** A count of seconds written in days, hours, minutes and seconds. */
  lemma SecondsSplit(s: int, days: int, hours: int, minutes: int, seconds: int)
    requires days >= 0 && 0 <= hours < 24 && 0 <= minutes < 60 && 0 <= seconds < 60
    requires s == days * 86400 + hours * 3600 + minutes * 60 + seconds
    ensures s % 60 == seconds && (s / 60) % 60 == minutes
    ensures (s / 60 / 60) % 24 == hours && s / 60 / 60 / 24 == days
  {
    assert s / 60 == days * 1440 + hours * 60 + minutes;
    assert s / 60 / 60 == days * 24 + hours;
  }

  /** Dividing by the units one after another is dividing by their product. */
  lemma DivChain(d: int)
    requires d > 0
    ensures d / 60000 == d / 1000 / 60
    ensures d / 3600000 == d / 1000 / 60 / 60
    ensures d / 86400000 == d / 1000 / 60 / 60 / 24
  {
  }

  /** Once the event time has passed the countdown stays where it is; a page
      opened after the event shows all zeros. */
  lemma TickAfterEvent(prev: TimeLeft, difference: int)
    requires difference <= 0
    ensures Tick(prev, difference) == prev
    ensures Tick(Zero, difference) == TimeLeft(0, 0, 0, 0)
  {
  }

  /** Less time left never shows more. */
  lemma TickMonotone(prev: TimeLeft, d1: int, d2: int)
    requires 0 < d1 <= d2
    ensures Millis(Tick(prev, d1)) <= Millis(Tick(prev, d2))
  {
    TickRecomposes(prev, d1);
    TickRecomposes(prev, d2);
    assert d1 / SecondMs <= d2 / SecondMs;
  }
}
