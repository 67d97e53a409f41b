/** The statistics endpoint's arithmetic (`GET /api/stats` in `server/routes.ts`): counts over a
    snapshot of the appointment list and the slot list, for the current day, the current week,
    each service and each availability flag. */
module Stats {
  import opened Clock
  import opened Lists
  import opened Schema

  /** A closed interval of instants, as the `>= lo && <= hi` tests of the handler use it. */
  datatype Window = Window(lo: Time, hi: Time)
  {
    predicate Contains(t: Time)
    {
      lo <= t && t <= hi
    }
  }

  /** The JSON object the endpoint answers with. */
  datatype StatsBody = StatsBody(
    todayAppointments: nat,
    weekAppointments: nat,
    totalCarregamentos: nat,
    totalDescarregamentos: nat,
    availableSlots: nat,
    occupiedSlots: nat)

  /** `startOfDay`/`endOfDay`: 00:00:00.000 to 23:59:59.999 of the local day of `now`. */
  function TodayWindow(now: Time): (w: Window)
    ensures forall t :: w.Contains(t) <==> DayNumber(t) == DayNumber(now)
  {
    forall t ensures Window(DayStart(now), EndOfDay(now)).Contains(t) <==> DayNumber(t) == DayNumber(now) {
      SameDayWindow(t, now);
    }
    Window(DayStart(now), EndOfDay(now))
  }

  /** The week window as the handler computes it. `today.setHours(23, 59, 59, 999)` has already
      moved `today` to the end of its day when `startOfWeek` is copied from it, so the window runs
      from Sunday 23:59:59.999 to Saturday 23:59:59.999 of the current week. */
  function StatsWeekWindow(now: Time): Window
  {
    var today := EndOfDay(now);
    var startOfWeek := today - DayOfWeek(today) * DayMs;
    Window(startOfWeek, startOfWeek + 6 * DayMs)
  }

  /** The local day number of the Sunday that starts the week of `t`. */
  function WeekSunday(t: Time): int
  {
    DayNumber(t) - DayOfWeek(t)
  }

  lemma EndOfDayParts(now: Time)
    ensures DayNumber(EndOfDay(now)) == DayNumber(now)
    ensures DayOfWeek(EndOfDay(now)) == DayOfWeek(now)
  {
    SameDayWindow(EndOfDay(now), now);
  }

  /** The as-written week window starts at the last millisecond of the week's Sunday and ends at
      the last millisecond of its Saturday. */
  lemma StatsWeekWindowBounds(now: Time)
    ensures var w := StatsWeekWindow(now);
      && w.lo == LocalMidnight(WeekSunday(now)) + DayMs - 1
      && w.hi == LocalMidnight(WeekSunday(now) + 6) + DayMs - 1
      && DayOfWeek(w.lo) == 0 && DayOfWeek(w.hi) == 6
  {
    var m := WeekSunday(now);
    EndOfDayParts(now);
    SundayMidnight(now);
    var lo := LocalMidnight(m) + DayMs - 1;
    var hi := LocalMidnight(m + 6) + DayMs - 1;
    assert (m + 6) * DayMs == m * DayMs + 6 * DayMs;
    assert DayNumber(lo) == m by { SameDayWindow(lo, LocalMidnight(m)); }
    assert DayNumber(hi) == m + 6 by { SameDayWindow(hi, LocalMidnight(m + 6)); }
    SundayWeekday(now);
  }

  /** The week's Sunday is a Sunday, and six days later is a Saturday. */
  lemma SundayWeekday(now: Time)
    ensures (WeekSunday(now) + 4) % 7 == 0 && (WeekSunday(now) + 6 + 4) % 7 == 6
  {
    var n := DayNumber(now);
    var q := (n + 4) / 7;
    assert n + 4 == 7 * q + DayOfWeek(now);
  }

  /** The week window the handler evidently means: Sunday 00:00:00.000 to Saturday
      23:59:59.999 of the current week. */
  function IntendedWeekWindow(now: Time): (w: Window)
    ensures forall t :: w.Contains(t) <==> WeekSunday(t) == WeekSunday(now)
  {
    var sunday := DayStart(now) - DayOfWeek(now) * DayMs;
    forall t ensures Window(sunday, sunday + 7 * DayMs - 1).Contains(t) <==> WeekSunday(t) == WeekSunday(now) {
      IntendedWeekMember(now, t);
    }
    Window(sunday, sunday + 7 * DayMs - 1)
  }

  lemma IntendedWeekMember(now: Time, t: Time)
    ensures var sunday := DayStart(now) - DayOfWeek(now) * DayMs;
      sunday <= t <= sunday + 7 * DayMs - 1 <==> WeekSunday(t) == WeekSunday(now)
  {
    SundayMidnight(now);
    SevenDays(WeekSunday(now), t);
    WeekDays(t, WeekSunday(now));
  }

  /** The week's Sunday starts `getDay()` days before the local midnight of `now`. */
  lemma SundayMidnight(now: Time)
    ensures DayStart(now) - DayOfWeek(now) * DayMs == LocalMidnight(WeekSunday(now))
  {
    var n, dow := DayNumber(now), DayOfWeek(now);
    assert (n - dow) * DayMs == n * DayMs - dow * DayMs;
  }

  /** The seven days from local midnight of day `m` hold exactly the instants of days
      `m` to `m + 6`. */
  lemma SevenDays(m: int, t: Time)
    ensures LocalMidnight(m) <= t <= LocalMidnight(m) + 7 * DayMs - 1 <==> m <= DayNumber(t) < m + 7
  {
    var n := DayNumber(t);
    assert LocalMidnight(n) <= t < LocalMidnight(n) + DayMs;
    if n < m {
      MulMonotone(n + 1, m);
    } else if n >= m + 7 {
      MulMonotone(m + 7, n);
    }
  }

  /** A day lies in the seven days from a Sunday exactly when that Sunday starts its week. */
  lemma WeekDays(t: Time, m: int)
    requires (m + 4) % 7 == 0
    ensures m <= DayNumber(t) < m + 7 <==> WeekSunday(t) == m
  {
    var n := DayNumber(t);
    var q := (n + 4) / 7;
    assert n + 4 == 7 * q + DayOfWeek(t);
  }

  /** FINDING, as written: every instant of the current week's Sunday before 23:59:59.999 lies
      in the intended week window but outside the one the handler uses. */
  lemma StatsWeekMissesSunday(now: Time, t: Time)
    requires DayNumber(t) == WeekSunday(now) && t < LocalMidnight(WeekSunday(now)) + DayMs - 1
    ensures IntendedWeekWindow(now).Contains(t)
    ensures !StatsWeekWindow(now).Contains(t)
  {
    StatsWeekWindowBounds(now);
    WeekDays(t, WeekSunday(now));
  }

  /** The filters the handler applies. */
  function InWindow(w: Window): Appointment -> bool
  {
    (a: Appointment) => w.Contains(a.dataHora)
  }

  function OfService(name: string): Appointment -> bool
  {
    (a: Appointment) => a.servico == name
  }

  function WithAvailability(available: bool): AvailableSlot -> bool
  {
    (s: AvailableSlot) => s.disponivel == available
  }

  /** The figures of the endpoint over snapshots of the appointment and slot lists. */
  function ComputeStats(appointments: seq<Appointment>, slots: seq<AvailableSlot>, now: Time): StatsBody
  {
    StatsBody(
      |Filter(appointments, InWindow(TodayWindow(now)))|,
      |Filter(appointments, InWindow(StatsWeekWindow(now)))|,
      |Filter(appointments, OfService("Carregamento"))|,
      |Filter(appointments, OfService("Descarregamento"))|,
      |Filter(slots, WithAvailability(true))|,
      |Filter(slots, WithAvailability(false))|)
  }

  /** Available and occupied slots add up to the number of slots. */
  lemma SlotTotals(appointments: seq<Appointment>, slots: seq<AvailableSlot>, now: Time)
    ensures var st := ComputeStats(appointments, slots, now);
      st.availableSlots + st.occupiedSlots == |slots|
  {
    FilterDisjointSum(slots, WithAvailability(true), WithAvailability(false));
  }

  /** The two service totals never exceed the number of appointments, and add up to it exactly
      when every appointment's service is one of the enum's two names. */
  lemma ServiceTotals(appointments: seq<Appointment>, slots: seq<AvailableSlot>, now: Time)
    ensures var st := ComputeStats(appointments, slots, now);
      && st.totalCarregamentos + st.totalDescarregamentos <= |appointments|
      && (st.totalCarregamentos + st.totalDescarregamentos == |appointments| <==>
            forall a :: a in appointments ==> ParseService(a.servico).Some?)
  {
    FilterDisjointSum(appointments, OfService("Carregamento"), OfService("Descarregamento"));
  }

  /** Appointments that conform to `appointmentSchema` make the service totals exact. */
  lemma ConformingServiceTotals(appointments: seq<Appointment>, slots: seq<AvailableSlot>, now: Time, isEmail: string -> bool)
    requires forall a :: a in appointments ==> ConformsToAppointmentSchema(a, isEmail)
    ensures var st := ComputeStats(appointments, slots, now);
      st.totalCarregamentos + st.totalDescarregamentos == |appointments|
  {
    ServiceTotals(appointments, slots, now);
  }

  /** Today's appointments are among the appointments; so are this week's. */
  lemma WindowCountsBounded(appointments: seq<Appointment>, slots: seq<AvailableSlot>, now: Time)
    ensures var st := ComputeStats(appointments, slots, now);
      st.todayAppointments <= |appointments| && st.weekAppointments <= |appointments|
  {
  }

  /** Today's figure over a listing of the appointments counts those on the local day of `now`. */
  lemma TodayCount(appointments: seq<Appointment>, slots: seq<AvailableSlot>, joined: set<Appointment>, now: Time)
    requires IsListing(appointments, joined)
    ensures ComputeStats(appointments, slots, now).todayAppointments ==
      |set a | a in joined && DayNumber(a.dataHora) == DayNumber(now)|
  {
    FilterListsCount(appointments, joined, InWindow(TodayWindow(now)),
      set a | a in joined && DayNumber(a.dataHora) == DayNumber(now));
  }

  /** The week's figure over a listing counts those inside the as-written week window. */
  lemma WeekCount(appointments: seq<Appointment>, slots: seq<AvailableSlot>, joined: set<Appointment>, now: Time)
    requires IsListing(appointments, joined)
    ensures ComputeStats(appointments, slots, now).weekAppointments ==
      |set a | a in joined && StatsWeekWindow(now).Contains(a.dataHora)|
  {
    FilterListsCount(appointments, joined, InWindow(StatsWeekWindow(now)),
      set a | a in joined && StatsWeekWindow(now).Contains(a.dataHora));
  }

  /** A service figure over a listing counts the appointments of that service. */
  lemma ServiceCount(appointments: seq<Appointment>, joined: set<Appointment>, name: string)
    requires IsListing(appointments, joined)
    ensures |Filter(appointments, OfService(name))| == |set a | a in joined && a.servico == name|
  {
    FilterListsCount(appointments, joined, OfService(name), set a | a in joined && a.servico == name);
  }

  /** The slot figures over a listing of the slots count the available and the occupied ones,
      which together are all of them. */
  lemma SlotCounts(appointments: seq<Appointment>, slots: seq<AvailableSlot>, values: set<AvailableSlot>, now: Time)
    requires IsListing(slots, values)
    ensures var st := ComputeStats(appointments, slots, now);
      && st.availableSlots == |set s | s in values && s.disponivel|
      && st.occupiedSlots == |set s | s in values && !s.disponivel|
      && st.availableSlots + st.occupiedSlots == |values|
  {
    FilterListsCount(slots, values, WithAvailability(true), set s | s in values && s.disponivel);
    FilterListsCount(slots, values, WithAvailability(false), set s | s in values && !s.disponivel);
    SlotTotals(appointments, slots, now);
    ListsLength(slots, values);
  }
}
