/** Instants as integer milliseconds since the Unix epoch (what `Date.getTime()` returns), and
    the local-calendar functions the server and the client pages use (`setHours`, `getHours`,
    `getDay`). Local time is modelled as a fixed offset from UTC, without daylight saving. */
module Clock {
  type Time = int

  const SecondMs: int := 1000
  const MinuteMs: int := 60 * SecondMs
  const HourMs: int := 60 * MinuteMs
  const DayMs: int := 24 * HourMs

  /** Local time is UTC−3 (Brasília time, which has had no daylight saving since 2019). */
  const LocalOffset: int := -3 * HourMs

  /** The local calendar day of `t`, counted in days since 1970-01-01. */
  function DayNumber(t: Time): int
  {
    (t + LocalOffset) / DayMs
  }

  /** Local midnight of the day of `t`: `new Date(t).setHours(0, 0, 0, 0)`. */
  function DayStart(t: Time): (r: Time)
    ensures r <= t < r + DayMs
    ensures r == DayNumber(t) * DayMs - LocalOffset
  {
    t - (t + LocalOffset) % DayMs
  }

  /** `setHours(23, 59, 59, 999)` on the day of `t`. */
  function EndOfDay(t: Time): Time
  {
    DayStart(t) + DayMs - 1
  }

  /** `new Date(t).getHours()`. */
  function HourOf(t: Time): (h: int)
    ensures 0 <= h < 24
    ensures DayStart(t) + h * HourMs <= t < DayStart(t) + (h + 1) * HourMs
  {
    ((t + LocalOffset) % DayMs) / HourMs
  }

  /** `new Date(t).getMinutes()`. */
  function MinuteOf(t: Time): (m: int)
    ensures 0 <= m < 60
  {
    ((t + LocalOffset) % HourMs) / MinuteMs
  }

  /** `new Date(t).getDay()`: 0 is Sunday; 1970-01-01 was a Thursday. */
  function DayOfWeek(t: Time): (d: int)
    ensures 0 <= d < 7
  {
    (DayNumber(t) + 4) % 7
  }

  /** UTC midnight of a calendar day: what `new Date("yyyy-MM-dd")` gives, since date-only
      strings are read as UTC. */
  function UtcMidnight(day: int): Time
  {
    day * DayMs
  }

  /** Local midnight of a calendar day: what `new Date("yyyy-MM-ddT00:00:00")` gives, since
      date-time strings without a zone are read as local time. */
  function LocalMidnight(day: int): (r: Time)
    ensures DayNumber(r) == day && DayStart(r) == r
  {
    day * DayMs - LocalOffset
  }

  /** An instant lies in the `[00:00:00.000, 23:59:59.999]` window of the day of `d`
      exactly when it falls on the same local day. */
  lemma SameDayWindow(t: Time, d: Time)
    ensures DayStart(d) <= t <= EndOfDay(d) <==> DayNumber(t) == DayNumber(d)
  {
    var n, m := DayNumber(t), DayNumber(d);
    if n < m {
      assert DayStart(t) + DayMs <= DayStart(d) by { MulMonotone(n + 1, m); }
    } else if m < n {
      assert DayStart(d) + DayMs <= DayStart(t) by { MulMonotone(m + 1, n); }
    }
  }

  lemma MulMonotone(a: int, b: int)
    requires a <= b
    ensures a * DayMs <= b * DayMs
  {
  }

  lemma NextDay(t: Time)
    ensures DayNumber(t + DayMs) == DayNumber(t) + 1
  {
  }

  lemma {:induction false} ShiftDayNumber(t: Time, k: int)
    ensures DayNumber(t + k * DayMs) == DayNumber(t) + k
    decreases if k < 0 then -k else k
  {
    if k > 0 {
      var u := t + (k - 1) * DayMs;
      ShiftDayNumber(t, k - 1);
      assert t + k * DayMs == u + DayMs;
      NextDay(u);
    } else if k < 0 {
      var u := t + k * DayMs;
      ShiftDayNumber(t, k + 1);
      assert t + (k + 1) * DayMs == u + DayMs;
      NextDay(u);
    }
  }

  /** Moving an instant by whole days moves its day by as many days and keeps its time of day. */
  lemma ShiftDays(t: Time, k: int)
    ensures DayNumber(t + k * DayMs) == DayNumber(t) + k
    ensures DayStart(t + k * DayMs) == DayStart(t) + k * DayMs
    ensures DayOfWeek(t + k * DayMs) == (DayOfWeek(t) + k) % 7
  {
    ShiftDayNumber(t, k);
    var n := DayNumber(t);
    assert (n + k) * DayMs == n * DayMs + k * DayMs;
    ModSum(n + 4, k);
  }

  lemma ModSum(a: int, k: int)
    ensures (a + k) % 7 == (a % 7 + k) % 7
  {
    var q := a / 7;
    assert a == 7 * q + a % 7;
    assert a + k == 7 * q + (a % 7 + k);
  }

  /** An instant given as a time of day on the day of `t`: `setHours(h, m, 0, 0)`. */
  function AtTimeOfDay(t: Time, h: int, m: int): Time
  {
    DayStart(t) + h * HourMs + m * MinuteMs
  }

  lemma TimeOfDayParts(t: Time, h: int, m: int)
    requires 0 <= h < 24 && 0 <= m < 60
    ensures DayStart(AtTimeOfDay(t, h, m)) == DayStart(t)
    ensures HourOf(AtTimeOfDay(t, h, m)) == h
    ensures (AtTimeOfDay(t, h, m) - DayStart(t)) % HourMs == m * MinuteMs
    ensures (AtTimeOfDay(t, h, m) + LocalOffset) % MinuteMs == 0
    ensures MinuteOf(AtTimeOfDay(t, h, m)) == m
  {
    var x := AtTimeOfDay(t, h, m);
    var ds := DayStart(t);
    assert ds <= x < ds + DayMs;
    SameDayWindow(x, t);
    var hours := DayNumber(t) * 24 + h;
    assert x + LocalOffset == hours * HourMs + m * MinuteMs;
    WholeHours(hours, m * MinuteMs);
  }

  /** The remainder of `q` whole hours plus `r`, for `r` within one hour. */
  lemma WholeHours(q: int, r: int)
    requires 0 <= r < HourMs
    ensures (q * HourMs + r) % HourMs == r
  {
  }
}
