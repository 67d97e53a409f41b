/** The list logic of the reports page (`client/src/pages/reports.tsx`): the filter by date
    range, service and status, the histogram of appointments by time band (a `reduce` that
    fills a dictionary in place), and the scale of its bars. */
module Reports {
  import opened Clock
  import opened Lists
  import opened Schema

  /** A date field of the report range: empty, or a calendar day written "yyyy-MM-dd"
      (every period the page offers, and the date inputs, give one of the two). */
  datatype DateField = Empty | OnDay(day: int)

  datatype DateRange = DateRange(start: DateField, end: DateField)

  /** The date test as the page writes it: with either end empty every instant passes;
      otherwise the start is `new Date("yyyy-MM-dd")`, which is UTC midnight, and the end is
      `new Date("yyyy-MM-ddT23:59:59")`, which is local time. */
  predicate InDateRangeAsWritten(t: Time, range: DateRange)
  {
    range.start.Empty? || range.end.Empty?
      || (UtcMidnight(range.start.day) <= t && t <= LocalMidnight(range.end.day) + DayMs - SecondMs)
  }

  /** The date test with both ends read in local time, as the end already is. */
  predicate InDateRange(t: Time, range: DateRange)
  {
    range.start.Empty? || range.end.Empty?
      || (LocalMidnight(range.start.day) <= t && t <= LocalMidnight(range.end.day) + DayMs - SecondMs)
  }

  /** On whole-second instants (every stored slot time is one) the local-time test keeps
      exactly the instants whose local day lies between the two days, both included. */
  lemma InDateRangeDays(t: Time, range: DateRange)
    requires t % SecondMs == 0
    requires range.start.OnDay? && range.end.OnDay?
    ensures InDateRange(t, range) <==> range.start.day <= DayNumber(t) <= range.end.day
  {
    var s, e := range.start.day, range.end.day;
    var d := DayNumber(t);
    assert DayStart(t) == LocalMidnight(d);
    if d < s {
      assert t < LocalMidnight(d) + DayMs;
      MulMonotone(d + 1, s);
    } else if d > e {
      MulMonotone(e + 1, d);
    } else {
      MulMonotone(s, d);
      MulMonotone(d, e);
      assert t <= LocalMidnight(d) + DayMs - SecondMs by {
        assert (t - LocalMidnight(d)) % SecondMs == 0;
      }
    }
  }

  /** The test as written also keeps the last three hours (21:00 onwards) of the day before
      the start day, and nothing else that the local-time test drops. */
  lemma AsWrittenAddsEveningBefore(t: Time, range: DateRange)
    requires range.start.OnDay? && range.end.OnDay? && range.start.day <= range.end.day
    ensures InDateRangeAsWritten(t, range) <==>
      InDateRange(t, range) || (DayNumber(t) == range.start.day - 1 && HourOf(t) >= 21)
  {
    var s := range.start.day;
    MulMonotone(s, range.end.day);
    var lo := LocalMidnight(s - 1);
    assert UtcMidnight(s) == lo + 21 * HourMs;
    if DayNumber(t) == s - 1 {
      assert DayStart(t) == lo;
      assert HourOf(t) >= 21 <==> t >= lo + 21 * HourMs;
    } else if DayNumber(t) < s - 1 {
      MulMonotone(DayNumber(t) + 1, s - 1);
    } else {
      MulMonotone(s, DayNumber(t));
    }
  }

  /** For the single-day range of day `d` (the "today" period), an appointment at 23:00 on
      the day before passes the test as written, and not the local-time test. */
  lemma TodayReportKeepsYesterdayEvening(d: int)
    ensures var range := DateRange(OnDay(d), OnDay(d));
      var t := LocalMidnight(d) - HourMs;
      && DayNumber(t) == d - 1
      && InDateRangeAsWritten(t, range)
      && !InDateRange(t, range)
  {
    var t := LocalMidnight(d) - HourMs;
    assert t == LocalMidnight(d - 1) + 23 * HourMs;
  }

  /** Whether the report keeps `a` for the given range and service and status choices. */
  function Kept(range: DateRange, service: string, status: string): Appointment -> bool
  {
    (a: Appointment) => InDateRangeAsWritten(a.dataHora, range)
      && ChoiceMatches(service, a.servico) && ChoiceMatches(status, a.status)
  }

  /** `filteredAppointments`: the appointments the report covers. */
  function FilteredAppointments(appointments: seq<Appointment>, range: DateRange, service: string, status: string)
    : (r: seq<Appointment>)
    ensures forall a :: a in r <==>
      && a in appointments
      && InDateRangeAsWritten(a.dataHora, range)
      && ChoiceMatches(service, a.servico)
      && ChoiceMatches(status, a.status)
  {
    Filter(appointments, Kept(range, service, status))
  }

  /** The report keeps the order of the appointments it was given, and with an empty date
      field and no service or status choice it covers all of them. */
  lemma FilteredKeepsOrder(appointments: seq<Appointment>, range: DateRange, service: string, status: string)
    ensures IsSubsequence(FilteredAppointments(appointments, range, service, status), appointments)
    ensures (range.start.Empty? || range.end.Empty?) && service in {"", "all"} && status in {"", "all"} ==>
      FilteredAppointments(appointments, range, service, status) == appointments
  {
    FilterIsSubsequence(appointments, Kept(range, service, status));
    FilterAllOrNone(appointments, Kept(range, service, status));
  }

  /** The five time bands of the histogram. */
  const Labels: seq<string> := ["08:00 - 10:00", "10:00 - 12:00", "14:00 - 16:00", "16:00 - 18:00", "Outros"]

  /** The band of an hour of the day: four two-hour bands over the working hours, and
      "Outros" for every other hour (lunch, night, early morning). */
  function Band(hour: int): (name: string)
    ensures name in Labels
    ensures name == "Outros" <==> !(8 <= hour < 12 || 14 <= hour < 18)
  {
    if 8 <= hour < 10 then Labels[0]
    else if 10 <= hour < 12 then Labels[1]
    else if 14 <= hour < 16 then Labels[2]
    else if 16 <= hour < 18 then Labels[3]
    else Labels[4]
  }

  function InBand(name: string): Appointment -> bool
  {
    (a: Appointment) => Band(HourOf(a.dataHora)) == name
  }

  /** How many appointments of `s` fall in the band `name`. */
  function Count(s: seq<Appointment>, name: string): nat
  {
    |Filter(s, InBand(name))|
  }

  /** Adding an appointment adds one to the count of its band and leaves the others. */
  lemma CountStep(s: seq<Appointment>, a: Appointment, name: string)
    ensures Count(s + [a], name) == Count(s, name) + (if Band(HourOf(a.dataHora)) == name then 1 else 0)
  {
    FilterAppend(s, [a], InBand(name));
  }

  /** Only the five bands can have a count. */
  lemma CountedBands(s: seq<Appointment>, name: string)
    requires Count(s, name) > 0
    ensures name in Labels
  {
    var a := Filter(s, InBand(name))[0];
    assert InBand(name)(a);
  }

  /** The histogram of `s`: each band that holds an appointment of `s`, with its count. */
  function Histogram(s: seq<Appointment>): map<string, nat>
  {
    map name | name in Labels && Count(s, name) > 0 :: Count(s, name)
  }

  /** A band is in the histogram exactly when it has a count, and holds its count. */
  lemma HistogramAt(s: seq<Appointment>, name: string)
    ensures name in Histogram(s) <==> Count(s, name) > 0
    ensures name in Histogram(s) ==> Histogram(s)[name] == Count(s, name)
  {
    if Count(s, name) > 0 {
      CountedBands(s, name);
    }
  }

  /** One more appointment adds one to its band's entry, creating the entry if needed. */
  lemma HistogramStep(s: seq<Appointment>, a: Appointment)
    ensures var band := Band(HourOf(a.dataHora));
      var h := Histogram(s);
      Histogram(s + [a]) == h[band := (if band in h then h[band] else 0) + 1]
  {
    var band := Band(HourOf(a.dataHora));
    var h := Histogram(s);
    var next := Histogram(s + [a]);
    var updated := h[band := (if band in h then h[band] else 0) + 1];
    forall name ensures (name in next <==> name in updated) && (name in next ==> next[name] == updated[name]) {
      HistogramAt(s, name);
      HistogramAt(s + [a], name);
      CountStep(s, a, name);
    }
    SameMaps(next, updated);
  }

  lemma HistogramEmpty(s: seq<Appointment>)
    ensures Histogram(s[..0]) == map[]
  {
    assert s[..0] == [];
    forall name ensures name !in Histogram(s[..0]) {
      HistogramAt(s[..0], name);
    }
  }

  lemma HistogramPrefix(s: seq<Appointment>, i: nat)
    requires i < |s|
    ensures var band := Band(HourOf(s[i].dataHora));
      var h := Histogram(s[..i]);
      Histogram(s[..i + 1]) == h[band := (if band in h then h[band] else 0) + 1]
  {
    assert s[..i + 1] == s[..i] + [s[i]];
    HistogramStep(s[..i], s[i]);
  }

  lemma SameMaps(m: map<string, nat>, n: map<string, nat>)
    requires forall k :: k in m <==> k in n
    requires forall k :: k in m ==> m[k] == n[k]
    ensures m == n
  {
  }

  /** `timeDistribution`: the `reduce` over the filtered appointments that adds one to the
      entry of each appointment's band, creating the entry at its first appointment. */
  method TimeDistribution(filtered: seq<Appointment>) returns (acc: map<string, nat>)
    ensures acc == Histogram(filtered)
  {
    acc := map[];
    var i := 0;
    HistogramEmpty(filtered);
    while i < |filtered|
      invariant 0 <= i <= |filtered|
      invariant acc == Histogram(filtered[..i])
    {
      var band := Band(HourOf(filtered[i].dataHora));
      HistogramPrefix(filtered, i);
      acc := acc[band := (if band in acc then acc[band] else 0) + 1];
      i := i + 1;
    }
    assert filtered[..|filtered|] == filtered;
  }

  /** The entry of a band, 0 when the band has none. */
  function Get(acc: map<string, nat>, name: string): nat
  {
    if name in acc then acc[name] else 0
  }

  /** The sum of the entries of the given bands. */
  function Total(acc: map<string, nat>, labels: seq<string>): nat
  {
    if labels == [] then 0 else Get(acc, labels[0]) + Total(acc, labels[1..])
  }

  /** The sum of the counts of the given bands. */
  function CountTotal(s: seq<Appointment>, labels: seq<string>): nat
  {
    if labels == [] then 0 else Count(s, labels[0]) + CountTotal(s, labels[1..])
  }

  /** How many times `name` occurs in `labels`. */
  function Occurrences(labels: seq<string>, name: string): nat
  {
    if labels == [] then 0 else (if labels[0] == name then 1 else 0) + Occurrences(labels[1..], name)
  }

  lemma {:induction false} CountTotalStep(s: seq<Appointment>, a: Appointment, labels: seq<string>)
    ensures CountTotal(s + [a], labels) == CountTotal(s, labels) + Occurrences(labels, Band(HourOf(a.dataHora)))
  {
    if labels != [] {
      CountStep(s, a, labels[0]);
      CountTotalStep(s, a, labels[1..]);
    }
  }

  /** Every band occurs once in the list of bands. */
  lemma BandsOnce(name: string)
    requires name in Labels
    ensures Occurrences(Labels, name) == 1
  {
    assert Labels[1..][1..][1..][1..][1..] == [];
  }

  /** Every appointment falls in exactly one band, so the counts of the five bands add up to
      the number of appointments. */
  lemma CountsAddUp(s: seq<Appointment>)
    ensures CountTotal(s, Labels) == |s|
  {
    forall a | a in s ensures Occurrences(Labels, Band(HourOf(a.dataHora))) == 1 {
      BandsOnce(Band(HourOf(a.dataHora)));
    }
    CountsAddUpOver(s, Labels);
  }

  /** The counts over a list of bands in which every appointment's band occurs once add up
      to the number of appointments. */
  lemma {:induction false} CountsAddUpOver(s: seq<Appointment>, labels: seq<string>)
    requires forall a :: a in s ==> Occurrences(labels, Band(HourOf(a.dataHora))) == 1
    ensures CountTotal(s, labels) == |s|
  {
    if s == [] {
      CountTotalEmpty(labels);
    } else {
      var init, last := s[..|s| - 1], s[|s| - 1];
      assert init + [last] == s;
      assert forall a :: a in init ==> a in s;
      CountsAddUpOver(init, labels);
      CountTotalStep(init, last, labels);
    }
  }

  lemma {:induction false} CountTotalEmpty(labels: seq<string>)
    ensures CountTotal([], labels) == 0
  {
    if labels != [] {
      CountTotalEmpty(labels[1..]);
    }
  }

  lemma {:induction false} TotalOfCounts(acc: map<string, nat>, s: seq<Appointment>, labels: seq<string>)
    requires forall name :: Get(acc, name) == Count(s, name)
    ensures Total(acc, labels) == CountTotal(s, labels)
  {
    if labels != [] {
      TotalOfCounts(acc, s, labels[1..]);
    }
  }

  /** The histogram's entries add up to the number of appointments in the report; every
      entry it holds is at least 1 and belongs to one of the five bands. */
  lemma HistogramAddsUp(s: seq<Appointment>)
    ensures Total(Histogram(s), Labels) == |s|
    ensures forall name :: name in Histogram(s) ==> Histogram(s)[name] >= 1 && name in Labels
  {
    var h := Histogram(s);
    forall name ensures Get(h, name) == Count(s, name) {
      HistogramAt(s, name);
    }
    TotalOfCounts(h, s, Labels);
    CountsAddUp(s);
  }

  /** `Object.values(acc)`: the entries of the histogram, here listed in the order of the
      bands (only their maximum is used, which does not depend on the order). */
  function Values(acc: map<string, nat>, labels: seq<string>): (r: seq<nat>)
    ensures forall name :: name in labels && name in acc ==> acc[name] in r
    ensures forall v :: v in r ==> exists name :: name in acc && acc[name] == v
  {
    if labels == [] then []
    else (if labels[0] in acc then [acc[labels[0]]] else []) + Values(acc, labels[1..])
  }

  /** `Math.max(...values, 1)`: the scale of the bars. */
  function MaxCount(values: seq<nat>): (m: nat)
    ensures m >= 1
    ensures forall i :: 0 <= i < |values| ==> values[i] <= m
    ensures m == 1 || m in values
  {
    if values == [] then 1
    else
      var rest := MaxCount(values[1..]);
      if values[0] > rest then values[0] else rest
  }

  /** The scale is at least 1 and at least every entry of the histogram, and it is either 1
      or one of the entries. */
  lemma MaxCountBoundsEntries(acc: map<string, nat>)
    requires forall name :: name in acc ==> name in Labels
    ensures var m := MaxCount(Values(acc, Labels));
      && m >= 1
      && (forall name :: name in acc ==> acc[name] <= m)
      && (m == 1 || exists name :: name in acc && acc[name] == m)
  {
    var vs := Values(acc, Labels);
    forall name | name in acc ensures acc[name] <= MaxCount(vs) {
      var i :| 0 <= i < |vs| && vs[i] == acc[name];
    }
  }
}
