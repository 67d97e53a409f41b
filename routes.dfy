/** The request handlers of `server/routes.ts`, one method per route. Each takes the parsed
    request (path parameters, query parameters, body fields) and the storage object, and
    returns the HTTP status code together with the JSON payload of a successful answer.
    Date strings reach the server's `new Date(...)` and the database through `parse`
    (`None` is an Invalid Date or a timestamp the database rejects, and answers 500);
    `toIso` is `Date.prototype.toISOString`. Generated ids, codes and the clock are
    parameters. */
module Routes {
  import opened Options
  import opened Clock
  import opened Lists
  import opened Schema
  import opened Tables
  import opened Storage
  import opened Stats

  const HttpOk := 200
  const HttpCreated := 201
  const HttpNoContent := 204
  const HttpBadRequest := 400
  const HttpNotFound := 404
  const HttpServerError := 500

  /** `new Date(iso)` gives back the instant `toISOString` printed. */
  ghost predicate RoundTrips(parse: string -> Option<Time>, toIso: Time -> string)
  {
    forall t :: parse(toIso(t)) == Some(t)
  }

  /** A slot lies in the window `getAvailableSlotsByDate` queries exactly when it is on the
      same local day as the requested date. */
  lemma SlotsOfDay(slots: SlotTable, date: Time)
    ensures forall s :: s in SlotsBetween(slots, DayStart(date), EndOfDay(date)) <==>
      s in slots.Values && DayNumber(s.dataHora) == DayNumber(date)
  {
    forall s ensures s in SlotsBetween(slots, DayStart(date), EndOfDay(date)) <==>
      s in slots.Values && DayNumber(s.dataHora) == DayNumber(date)
    {
      SameDayWindow(s.dataHora, date);
    }
  }

  /** `GET /api/slots`: every slot, ascending by time. */
  method GetSlots(store: DatabaseStorage) returns (status: int, body: seq<AvailableSlot>)
    requires store.Valid()
    ensures status == HttpOk
    ensures SortedBy(body, SlotTime) && IsListing(body, store.slots.Values)
  {
    body := store.GetAvailableSlots();
    status := HttpOk;
  }

  /** `GET /api/slots/date/:date`: the slots of the local day of `date`, ascending by time;
      500 when `date` is not a date. */
  method GetSlotsByDate(store: DatabaseStorage, date: string, parse: string -> Option<Time>)
    returns (status: int, body: seq<AvailableSlot>)
    requires store.Valid()
    ensures parse(date).None? ==> status == HttpServerError && body == []
    ensures parse(date).Some? ==>
      && status == HttpOk
      && SortedBy(body, SlotTime)
      && multiset(body) == multiset(set s | s in store.slots.Values && DayNumber(s.dataHora) == DayNumber(parse(date).value))
  {
    var t := parse(date);
    if t.None? {
      return HttpServerError, [];
    }
    body := store.GetAvailableSlotsByDate(t.value);
    SlotsOfDay(store.slots, t.value);
    assert SlotsBetween(store.slots, DayStart(t.value), EndOfDay(t.value))
      == set s | s in store.slots.Values && DayNumber(s.dataHora) == DayNumber(t.value);
    status := HttpOk;
  }

  /** `POST /api/slots`: 400 for a body `createSlotSchema` rejects, 500 for a time the
      database cannot read, otherwise 201 with the new slot. */
  method PostSlot(store: DatabaseStorage, body: SlotBody, parse: string -> Option<Time>, id: Id, now: Time)
    returns (status: int, created: Option<AvailableSlot>)
    requires store.Valid() && id !in store.slots
    modifies store
    ensures store.Valid() && store.appointments == old(store.appointments)
    ensures ParseCreateSlot(body).None? ==>
      status == HttpBadRequest && created.None? && store.slots == old(store.slots)
    ensures ParseCreateSlot(body).Some? && parse(body.dataHora.value).None? ==>
      status == HttpServerError && created.None? && store.slots == old(store.slots)
    ensures ParseCreateSlot(body).Some? && parse(body.dataHora.value).Some? ==>
      && status == HttpCreated
      && created == Some(AvailableSlot(id, parse(body.dataHora.value).value, body.servico.value,
                                       body.disponivel != Some(false), now))
      && store.slots == old(store.slots)[id := created.value]
    ensures old(Mirror(store.slots, store.appointments)) ==> Mirror(store.slots, store.appointments)
  {
    var data := ParseCreateSlot(body);
    if data.None? {
      return HttpBadRequest, None;
    }
    var t := parse(data.value.dataHora);
    if t.None? {
      return HttpServerError, None;
    }
    var s := store.CreateAvailableSlot(id, now, t.value, ServiceName(data.value.servico), data.value.disponivel);
    status, created := HttpCreated, Some(s);
  }

  /** The body of `PUT /api/slots/:id`, before its time is read. */
  datatype SlotUpdateBody = SlotUpdateBody(dataHora: Option<string>, servico: Option<string>, disponivel: Option<bool>)

  /** `PUT /api/slots/:id`: the body's fields are written as they are, unvalidated. 500 when a
      time is given that the database cannot read; 404 when no field is given or no slot has
      that id; otherwise 200 with the updated slot. */
  method PutSlot(store: DatabaseStorage, id: Id, body: SlotUpdateBody, parse: string -> Option<Time>)
    returns (status: int, updated: Option<AvailableSlot>)
    requires store.Valid()
    modifies store
    ensures store.Valid() && store.appointments == old(store.appointments)
    ensures body.dataHora.Some? && parse(body.dataHora.value).None? ==>
      status == HttpServerError && updated.None? && store.slots == old(store.slots)
    ensures (body.dataHora.None? || parse(body.dataHora.value).Some?) ==>
      var u := SlotUpdate(if body.dataHora.Some? then parse(body.dataHora.value) else None, body.servico, body.disponivel);
      && (u == SlotUpdate(None, None, None) || id !in old(store.slots) ==>
            status == HttpNotFound && updated.None? && store.slots == old(store.slots))
      && (u != SlotUpdate(None, None, None) && id in old(store.slots) ==>
            && status == HttpOk
            && updated == Some(ApplySlotUpdate(old(store.slots)[id], u))
            && store.slots == old(store.slots)[id := updated.value])
  {
    var t: Option<Time> := None;
    if body.dataHora.Some? {
      t := parse(body.dataHora.value);
      if t.None? {
        return HttpServerError, None;
      }
    }
    updated := store.UpdateAvailableSlot(id, SlotUpdate(t, body.servico, body.disponivel));
    status := if updated.None? then HttpNotFound else HttpOk;
  }

  /** `DELETE /api/slots/:id`: 404 for an unknown id, otherwise 204 and the slot is gone. */
  method DeleteSlot(store: DatabaseStorage, id: Id) returns (status: int)
    requires store.Valid()
    modifies store
    ensures store.Valid() && store.appointments == old(store.appointments)
    ensures id !in old(store.slots) ==> status == HttpNotFound && store.slots == old(store.slots)
    ensures id in old(store.slots) ==> status == HttpNoContent && store.slots == old(store.slots) - {id}
  {
    var deleted := store.DeleteAvailableSlot(id);
    status := if deleted then HttpNoContent else HttpNotFound;
  }

  /** Whether an id names a slot of the table. */
  function Names(slots: SlotTable): Id -> bool
  {
    (k: Id) => k in slots
  }

  /** The ids of a list that name an existing slot, repeats included. */
  function Known(ids: seq<Id>, slots: SlotTable): seq<Id>
  {
    Filter(ids, Names(slots))
  }

  lemma KnownStep(ids: seq<Id>, i: nat, slots: SlotTable)
    requires i < |ids|
    ensures |Known(ids[..i + 1], slots)| == |Known(ids[..i], slots)| + (if ids[i] in slots then 1 else 0)
  {
    assert ids[..i + 1] == ids[..i] + [ids[i]];
    FilterAppend(ids[..i], [ids[i]], Names(slots));
  }

  /** The table after every listed slot is marked unavailable. */
  function BlockAll(slots: SlotTable, ids: seq<Id>): (r: SlotTable)
    ensures r.Keys == slots.Keys
  {
    map k | k in slots :: if k in ids then slots[k].(disponivel := false) else slots[k]
  }

  /** Blocking is idempotent: blocking the same ids again changes nothing. */
  lemma BlockAllIdempotent(slots: SlotTable, ids: seq<Id>)
    ensures BlockAll(BlockAll(slots, ids), ids) == BlockAll(slots, ids)
  {
  }

  /** Blocking keeps the slot/appointment mirror. */
  lemma BlockAllKeepsMirror(slots: SlotTable, appointments: AppointmentTable, ids: seq<Id>)
    requires Mirror(slots, appointments)
    ensures Mirror(BlockAll(slots, ids), appointments)
  {
  }

  /** After blocking, nothing listed is bookable, and what was bookable and not listed still is. */
  lemma BlockAllBookable(slots: SlotTable, ids: seq<Id>, dataHora: Time, servico: string)
    ensures Bookable(BlockAll(slots, ids), dataHora, servico) ==
      set k | k in Bookable(slots, dataHora, servico) && k !in ids
  {
  }

  lemma BlockStep(slots: SlotTable, before: SlotTable, ids: seq<Id>, i: nat)
    requires i < |ids| && slots == BlockAll(before, ids[..i])
    ensures SetAvailability(slots, ids[i], false) == BlockAll(before, ids[..i + 1])
  {
    assert ids[..i + 1] == ids[..i] + [ids[i]];
  }

  /** Where the block loop stands before `ids[i]`: the ids before it are blocked and counted. */
  predicate BlockedUpTo(slots: SlotTable, before: SlotTable, ids: seq<Id>, i: nat, count: nat)
  {
    i <= |ids| && slots == BlockAll(before, ids[..i]) && count == |Known(ids[..i], before)|
  }

  lemma BlockedStep(slots: SlotTable, before: SlotTable, ids: seq<Id>, i: nat, count: nat)
    requires i < |ids| && BlockedUpTo(slots, before, ids, i, count)
    ensures ids[i] in slots <==> ids[i] in before
    ensures BlockedUpTo(SetAvailability(slots, ids[i], false), before, ids, i + 1,
                        count + if ids[i] in slots then 1 else 0)
  {
    BlockStep(slots, before, ids, i);
    KnownStep(ids, i, before);
  }

  lemma BlockedAll(slots: SlotTable, before: SlotTable, ids: seq<Id>, count: nat)
    requires BlockedUpTo(slots, before, ids, |ids|, count)
    ensures slots == BlockAll(before, ids) && count == |Known(ids, before)|
  {
    assert ids[..|ids|] == ids;
  }

  /** `POST /api/slots/block`: 400 when `slotIds` is missing, not an array or empty; otherwise
      every listed slot is marked unavailable, 200, and `blockedCount` counts the listed ids
      that named a slot (an id listed twice counts twice). */
  method PostBlock(store: DatabaseStorage, slotIds: Option<seq<Id>>) returns (status: int, blockedCount: nat)
    requires store.Valid()
    modifies store
    ensures store.Valid() && store.appointments == old(store.appointments)
    ensures slotIds.None? || slotIds.value == [] ==>
      status == HttpBadRequest && blockedCount == 0 && store.slots == old(store.slots)
    ensures slotIds.Some? && slotIds.value != [] ==>
      && status == HttpOk
      && blockedCount == |Known(slotIds.value, old(store.slots))|
      && store.slots == BlockAll(old(store.slots), slotIds.value)
  {
    if slotIds.None? || slotIds.value == [] {
      return HttpBadRequest, 0;
    }
    blockedCount := BlockEach(store, slotIds.value);
    status := HttpOk;
  }

  /** The loop of the block handler: marks each listed slot unavailable in turn and counts the
      updates that found a slot. */
  method BlockEach(store: DatabaseStorage, ids: seq<Id>) returns (blockedCount: nat)
    requires store.Valid()
    modifies store
    ensures store.Valid() && store.appointments == old(store.appointments)
    ensures blockedCount == |Known(ids, old(store.slots))|
    ensures store.slots == BlockAll(old(store.slots), ids)
  {
    ghost var before := store.slots;
    blockedCount := 0;
    assert before == BlockAll(before, ids[..0]);
    for i := 0 to |ids|
      invariant store.Valid() && store.appointments == old(store.appointments)
      invariant BlockedUpTo(store.slots, before, ids, i, blockedCount)
    {
      BlockedStep(store.slots, before, ids, i, blockedCount);
      var updated := store.UpdateAvailableSlot(ids[i], SlotUpdate(None, None, Some(false)));
      if updated.Some? {
        blockedCount := blockedCount + 1;
      }
    }
    BlockedAll(store.slots, before, ids, blockedCount);
  }

  /** A second identical block request changes nothing and reports the same count. */
  lemma PostBlockTwice(slots: SlotTable, ids: seq<Id>)
    ensures BlockAll(BlockAll(slots, ids), ids) == BlockAll(slots, ids)
    ensures |Known(ids, BlockAll(slots, ids))| == |Known(ids, slots)|
  {
    FilterSameOn(ids, Names(BlockAll(slots, ids)), Names(slots));
  }

  /** `GET /api/appointments`: a non-empty `email` selects that client's appointments; otherwise
      a non-empty `startDate` and `endDate` select those whose time lies between them (500 when
      either is not a date); otherwise every appointment. Always ascending by time. */
  method GetAppointmentList(store: DatabaseStorage, email: Option<string>, startDate: Option<string>,
                            endDate: Option<string>, parse: string -> Option<Time>)
    returns (status: int, body: seq<Appointment>)
    requires store.Valid()
    ensures status == HttpOk ==> SortedBy(body, AppointmentTime)
    ensures email.Some? && email.value != "" ==>
      status == HttpOk &&
      IsListing(body, set a | a in Joined(store.slots, store.appointments) && a.emailCliente == email.value)
    ensures !(email.Some? && email.value != "") && startDate.Some? && startDate.value != ""
            && endDate.Some? && endDate.value != "" ==>
      if parse(startDate.value).None? || parse(endDate.value).None? then
        status == HttpServerError && body == []
      else
        var lo, hi := parse(startDate.value).value, parse(endDate.value).value;
        status == HttpOk &&
        IsListing(body, set a | a in Joined(store.slots, store.appointments) && lo <= a.dataHora <= hi)
    ensures !(email.Some? && email.value != "")
            && !(startDate.Some? && startDate.value != "" && endDate.Some? && endDate.value != "") ==>
      status == HttpOk && IsListing(body, Joined(store.slots, store.appointments))
  {
    if email.Some? && email.value != "" {
      body := store.GetAppointmentsByEmail(email.value);
    } else if startDate.Some? && startDate.value != "" && endDate.Some? && endDate.value != "" {
      var lo, hi := parse(startDate.value), parse(endDate.value);
      if lo.None? || hi.None? {
        return HttpServerError, [];
      }
      body := store.GetAppointmentsByDateRange(lo.value, hi.value);
    } else {
      body := store.GetAppointments();
    }
    status := HttpOk;
  }

  /** The slot the booking handler's pre-check looks for: same time text, same service,
      available. */
  function PreCheck(toIso: Time -> string, dataHora: string, servico: string): AvailableSlot -> bool
  {
    (s: AvailableSlot) => toIso(s.dataHora) == dataHora && s.servico == servico && s.disponivel
  }

  /** The pre-check over the requested day's slots finds a slot exactly when the request's time
      text is the canonical text of its instant and some slot is bookable at that instant: the
      day-scoped search misses no candidate. */
  lemma PreCheckFindsBookable(slots: SlotTable, r: seq<AvailableSlot>, parse: string -> Option<Time>,
                              toIso: Time -> string, dataHora: string, t: Time, servico: string)
    requires KeyedById(slots, map[])
    requires RoundTrips(parse, toIso) && parse(dataHora) == Some(t)
    requires IsListing(r, SlotsBetween(slots, DayStart(t), EndOfDay(t)))
    ensures Find(r, PreCheck(toIso, dataHora, servico)).Some? <==>
      toIso(t) == dataHora && Bookable(slots, t, servico) != {}
    ensures Find(r, PreCheck(toIso, dataHora, servico)).Some? ==>
      Find(r, PreCheck(toIso, dataHora, servico)).value.id in Bookable(slots, t, servico)
  {
    var p := PreCheck(toIso, dataHora, servico);
    ListsLength(r, SlotsBetween(slots, DayStart(t), EndOfDay(t)));
    var found := Find(r, p);
    if found.Some? {
      var s := found.value;
      assert s in r;
      assert parse(toIso(s.dataHora)) == Some(s.dataHora);
      assert s.id in slots && slots[s.id] == s;
    }
    if toIso(t) == dataHora && Bookable(slots, t, servico) != {} {
      var k :| k in Bookable(slots, t, servico);
      var s := slots[k];
      assert DayStart(t) <= s.dataHora <= EndOfDay(t);
      assert s in r;
      var j :| 0 <= j < |r| && r[j] == s;
      assert p(r[j]);
    }
  }

  /** `POST /api/appointments`: 400 for a body `bookingFormSchema` rejects; 500 for a time that
      is not a date; 400 when the day's slots hold no available slot with exactly that time text
      and service; otherwise one appointment is created on a bookable slot, which is marked
      unavailable, the slot the pre-check found is marked unavailable too, and 201 with the
      created appointment. */
  method PostAppointment(store: DatabaseStorage, body: BookingBody, isEmail: string -> bool,
                         parse: string -> Option<Time>, toIso: Time -> string, id: Id, code: string, now: Time)
    returns (status: int, created: Option<Appointment>)
    requires store.Valid() && id !in store.appointments
    requires RoundTrips(parse, toIso)
    modifies store
    ensures store.Valid()
    ensures old(Mirror(store.slots, store.appointments)) ==> Mirror(store.slots, store.appointments)
    ensures ParseBookingForm(body, isEmail).None? ==>
      status == HttpBadRequest && created.None? && unchanged(store)
    ensures ParseBookingForm(body, isEmail).Some? && parse(body.dataHora.value).None? ==>
      status == HttpServerError && created.None? && unchanged(store)
    ensures ParseBookingForm(body, isEmail).Some? && parse(body.dataHora.value).Some? ==>
      var t := parse(body.dataHora.value).value;
      var servico := body.servico.value;
      var v := ParseBookingForm(body, isEmail).value;
      var request := NewAppointment(t, servico, v.nomeCliente, v.emailCliente, v.telefoneCliente,
                                    v.empresaCliente, v.observacoes, Some(StatusName(v.status)));
      && (toIso(t) != body.dataHora.value || Bookable(old(store.slots), t, servico) == {} ==>
            status == HttpBadRequest && created.None? && unchanged(store))
      && (toIso(t) == body.dataHora.value && Bookable(old(store.slots), t, servico) != {} ==>
            && status == HttpCreated && id in store.appointments
            && var sid := store.appointments[id].slotId;
            && sid in Bookable(old(store.slots), t, servico)
            && store.appointments == old(store.appointments)[id := InsertedRow(id, sid, request, code, now)]
            && created == Some(Created(id, old(store.slots)[sid], request, code, now))
            && exists tid :: tid in Bookable(old(store.slots), t, servico) &&
                 store.slots == SetAvailability(SetAvailability(old(store.slots), sid, false), tid, false))
  {
    var data := ParseBookingForm(body, isEmail);
    if data.None? {
      return HttpBadRequest, None;
    }
    var v := data.value;
    var t := parse(v.dataHora);
    if t.None? {
      return HttpServerError, None;
    }
    var servico := ServiceName(v.servico);
    var daySlots := store.GetAvailableSlotsByDate(t.value);
    PreCheckFindsBookable(store.slots, daySlots, parse, toIso, v.dataHora, t.value, servico);
    var target := Find(daySlots, PreCheck(toIso, v.dataHora, servico));
    if target.None? {
      return HttpBadRequest, None;
    }
    var request := NewAppointment(t.value, servico, v.nomeCliente, v.emailCliente, v.telefoneCliente,
                                  v.empresaCliente, v.observacoes, Some(StatusName(v.status)));
    ghost var before := store.slots;
    var r := store.CreateAppointment(request, id, code, now);
    ghost var booked := store.slots;
    if Mirror(store.slots, store.appointments) {
      BlockingKeepsMirror(store.slots, store.appointments, target.value.id);
    }
    var _ := store.UpdateAvailableSlot(target.value.id, SlotUpdate(None, None, Some(false)));
    assert store.slots == SetAvailability(booked, target.value.id, false);
    status, created := HttpCreated, Some(r.value);
  }

  /** `PUT /api/appointments/:id`: status and notes as sent. 404 when neither is given or no
      appointment has that id; 500 when the appointment's slot no longer exists; otherwise 200
      with the appointment as the join lists it. */
  method PutAppointment(store: DatabaseStorage, id: Id, updates: AppointmentUpdate)
    returns (status: int, body: Option<Appointment>)
    requires store.Valid()
    modifies store
    ensures store.Valid() && store.slots == old(store.slots)
    ensures old(Mirror(store.slots, store.appointments)) ==> Mirror(store.slots, store.appointments)
    ensures updates == AppointmentUpdate(None, None) || id !in old(store.appointments) ==>
      status == HttpNotFound && body.None? && store.appointments == old(store.appointments)
    ensures updates != AppointmentUpdate(None, None) && id in old(store.appointments) ==>
      var row := ApplyAppointmentUpdate(old(store.appointments)[id], updates);
      && store.appointments == old(store.appointments)[id := row]
      && (row.slotId in store.slots ==> status == HttpOk && body == Some(Join(row, store.slots[row.slotId])))
      && (row.slotId !in store.slots ==> status == HttpServerError && body.None?)
  {
    var r := store.UpdateAppointment(id, updates);
    if r.Failure? {
      return HttpServerError, None;
    }
    if r.value.None? {
      return HttpNotFound, None;
    }
    status, body := HttpOk, r.value;
  }

  /** The joined appointment with a given id is the one stored under it. */
  lemma JoinedById(slots: SlotTable, appointments: AppointmentTable, a: Appointment)
    requires KeyedById(slots, appointments)
    requires a in Joined(slots, appointments)
    ensures a.id in appointments && appointments[a.id].slotId in slots
    ensures a == Join(appointments[a.id], slots[appointments[a.id].slotId])
  {
  }

  /** Looking an id up in the joined listing finds it exactly when the appointment exists and
      its slot does too. */
  lemma FindById(slots: SlotTable, appointments: AppointmentTable, r: seq<Appointment>, id: Id)
    requires KeyedById(slots, appointments)
    requires IsListing(r, Joined(slots, appointments))
    ensures Find(r, (a: Appointment) => a.id == id).Some? <==>
      id in appointments && appointments[id].slotId in slots
    ensures Find(r, (a: Appointment) => a.id == id).Some? ==>
      Find(r, (a: Appointment) => a.id == id).value == Join(appointments[id], slots[appointments[id].slotId])
  {
    ListsLength(r, Joined(slots, appointments));
    var found := Find(r, (a: Appointment) => a.id == id);
    if found.Some? {
      JoinedById(slots, appointments, found.value);
    }
    if id in appointments && appointments[id].slotId in slots {
      var a := Join(appointments[id], slots[appointments[id].slotId]);
      assert a in Joined(slots, appointments);
      var j :| 0 <= j < |r| && r[j] == a;
    }
  }

  /** The slot table `after` the as-written cancellation of the appointment on slot `sid`: a slot
      `rid` with the same time and service is freed, then `sid` itself. */
  predicate FreesAsWritten(slots: SlotTable, sid: Id, rid: Id, after: SlotTable)
    requires sid in slots
  {
    && rid in slots
    && slots[rid].dataHora == slots[sid].dataHora
    && slots[rid].servico == slots[sid].servico
    && after == SetAvailability(SetAvailability(slots, rid, true), sid, true)
  }

  /** `DELETE /api/appointments/:id` as written: 404 unless the joined listing holds the
      appointment; otherwise the first slot of the full slot listing with the appointment's time
      and service is marked available, the appointment is deleted (which marks its own slot
      available) and 204. With several slots at the same time and service, the slot freed first
      may be another client's booked slot. */
  method DeleteAppointmentAsWritten(store: DatabaseStorage, id: Id) returns (status: int)
    requires store.Valid()
    modifies store
    ensures store.Valid()
    ensures id !in old(store.appointments) || old(store.appointments)[id].slotId !in old(store.slots) ==>
      status == HttpNotFound && unchanged(store)
    ensures id in old(store.appointments) && old(store.appointments)[id].slotId in old(store.slots) ==>
      var sid := old(store.appointments)[id].slotId;
      && status == HttpNoContent
      && store.appointments == old(store.appointments) - {id}
      && exists rid :: FreesAsWritten(old(store.slots), sid, rid, store.slots)
  {
    ghost var before := store.slots;
    var all := store.GetAppointments();
    FindById(store.slots, store.appointments, all, id);
    var toDelete := Find(all, (a: Appointment) => a.id == id);
    if toDelete.None? {
      return HttpNotFound;
    }
    var slotList := store.GetAvailableSlots();
    ListsLength(slotList, store.slots.Values);
    var sid := store.appointments[id].slotId;
    var matching := (s: AvailableSlot) => s.dataHora == toDelete.value.dataHora && s.servico == toDelete.value.servico;
    assert store.slots[sid] in slotList;
    var related := Find(slotList, matching);
    var rid := related.value.id;
    assert related.value in store.slots.Values;
    assert rid in store.slots && store.slots[rid] == related.value;
    var _ := store.UpdateAvailableSlot(rid, SlotUpdate(None, None, Some(true)));
    var deleted := store.DeleteAppointment(id);
    assert FreesAsWritten(before, sid, rid, store.slots);
    status := HttpNoContent;
  }

  /** `DELETE /api/appointments/:id` as evidently intended: the appointment is deleted, which
      frees exactly the slot it held. 404 unless the joined listing holds it. */
  method DeleteAppointmentRoute(store: DatabaseStorage, id: Id) returns (status: int)
    requires store.Valid()
    modifies store
    ensures store.Valid()
    ensures old(Mirror(store.slots, store.appointments)) ==> Mirror(store.slots, store.appointments)
    ensures id !in old(store.appointments) || old(store.appointments)[id].slotId !in old(store.slots) ==>
      status == HttpNotFound && unchanged(store)
    ensures id in old(store.appointments) && old(store.appointments)[id].slotId in old(store.slots) ==>
      && status == HttpNoContent
      && store.appointments == old(store.appointments) - {id}
      && store.slots == SetAvailability(old(store.slots), old(store.appointments)[id].slotId, true)
  {
    var all := store.GetAppointments();
    FindById(store.slots, store.appointments, all, id);
    var toDelete := Find(all, (a: Appointment) => a.id == id);
    if toDelete.None? {
      return HttpNotFound;
    }
    var deleted := store.DeleteAppointment(id);
    status := HttpNoContent;
  }

  /** Two slots at the same time for the same service, both booked. */
  function TwinSlots(): SlotTable
  {
    map["a" := AvailableSlot("a", 0, "Carregamento", false, 0),
        "b" := AvailableSlot("b", 0, "Carregamento", false, 0)]
  }

  function TwinBookings(): AppointmentTable
  {
    map["1" := AppointmentRow("1", "a", "Ana", "ana@example.com", None, None, None, "AAAAAA", "confirmado", 0),
        "2" := AppointmentRow("2", "b", "Rui", "rui@example.com", None, None, None, "BBBBBB", "confirmado", 0)]
  }

  lemma TwinsMirrored()
    ensures KeyedById(TwinSlots(), TwinBookings()) && Mirror(TwinSlots(), TwinBookings())
  {
    var appointments := TwinBookings();
    assert appointments.Keys == {"1", "2"};
    assert appointments["1"].slotId != appointments["2"].slotId;
  }

  lemma TwinsListedBA()
    ensures var listing := [TwinSlots()["b"], TwinSlots()["a"]];
      && SortedBy(listing, SlotTime) && IsListing(listing, TwinSlots().Values)
      && Find(listing, (s: AvailableSlot) => s.dataHora == 0 && s.servico == "Carregamento") == Some(TwinSlots()["b"])
  {
    var slots := TwinSlots();
    var listing := [slots["b"], slots["a"]];
    assert slots.Values == {slots["a"], slots["b"]} by {
      forall s | s in slots.Values ensures s in {slots["a"], slots["b"]} {
        var k :| k in slots && slots[k] == s;
      }
    }
    assert slots["a"] != slots["b"];
    assert multiset(listing) == multiset{slots["b"], slots["a"]};
  }

  lemma TwinsAfterDelete()
    ensures var after := SetAvailability(SetAvailability(TwinSlots(), "b", true), "a", true);
      var remaining := TwinBookings() - {"1"};
      && !Mirror(after, remaining)
      && "b" in Bookable(after, 0, "Carregamento") && remaining["2"].slotId == "b"
  {
    var after := SetAvailability(SetAvailability(TwinSlots(), "b", true), "a", true);
    var remaining := TwinBookings() - {"1"};
    assert "2" in remaining && remaining["2"].slotId == "b";
    assert after["b"].disponivel;
  }

  /** FINDING, as written: on the twin store above (valid, and mirrored), the outcome that
      `DeleteAppointmentAsWritten`'s contract allows for cancelling appointment 1 includes the one
      with `rid == "b"`: the slot listing ordered `b, a` is a legal `ORDER BY` order, since both
      times are equal, so its first match is `b`. In that outcome slot `b` is available although
      appointment 2 still holds it, so the mirror breaks and `b` can be booked a second time. */
  lemma DeleteAsWrittenFreesAnotherBooking()
    ensures KeyedById(TwinSlots(), TwinBookings()) && Mirror(TwinSlots(), TwinBookings())
    ensures var listing := [TwinSlots()["b"], TwinSlots()["a"]];
      && SortedBy(listing, SlotTime) && IsListing(listing, TwinSlots().Values)
      && Find(listing, (s: AvailableSlot) => s.dataHora == 0 && s.servico == "Carregamento") == Some(TwinSlots()["b"])
    ensures var after := SetAvailability(SetAvailability(TwinSlots(), "b", true), "a", true);
      var remaining := TwinBookings() - {"1"};
      && "1" in TwinBookings() && TwinBookings()["1"].slotId in TwinSlots()
      && FreesAsWritten(TwinSlots(), TwinBookings()["1"].slotId, "b", after)
      && "2" in remaining && remaining["2"].slotId == "b" && after["b"].disponivel
      && !Mirror(after, remaining)
      && "b" in Bookable(after, 0, "Carregamento")
  {
    TwinsMirrored();
    TwinsListedBA();
    TwinsAfterDelete();
  }

  /** `GET /api/appointments/code/:code`: 404 when no listed appointment has the code, otherwise
      200 with one that has it. */
  method GetAppointmentByCodeRoute(store: DatabaseStorage, code: string) returns (status: int, body: Option<Appointment>)
    requires store.Valid()
    ensures status == HttpNotFound <==> forall a :: a in Joined(store.slots, store.appointments) ==> a.codigoConfirmacao != code
    ensures status == HttpNotFound ==> body.None?
    ensures status != HttpNotFound ==>
      status == HttpOk && body.Some? && body.value in Joined(store.slots, store.appointments) && body.value.codigoConfirmacao == code
  {
    body := store.GetAppointmentByCode(code);
    status := if body.None? then HttpNotFound else HttpOk;
  }

  /** One entry of a bulk-week request's `timeSlots`: the hour and minute `parseInt` reads from
      the two halves of `time` (`None` when it reads `NaN`), and the service text. */
  datatype TimeSlot = TimeSlot(hours: Option<int>, minutes: Option<int>, service: string)

  predicate Readable(ts: TimeSlot)
  {
    ts.hours.Some? && ts.minutes.Some?
  }

  predicate Unreadable(ts: TimeSlot)
  {
    !Readable(ts)
  }

  /** The slot an entry yields on the `day`-th day from `start`: `setHours(h, m, 0, 0)` on that
      day, available, with the entry's service, created at `now`. */
  function WeekSlot(start: Time, ts: TimeSlot, day: int, id: Id, now: Time): AvailableSlot
    requires Readable(ts)
  {
    AvailableSlot(id, AtTimeOfDay(start + day * DayMs, ts.hours.value, ts.minutes.value), ts.service, true, now)
  }

  /** Every entry's time can be read. */
  predicate AllReadable(timeSlots: seq<TimeSlot>)
  {
    forall i :: 0 <= i < |timeSlots| ==> Readable(timeSlots[i])
  }

  /** The entries a plan up to entry `j` of day `day` has read: all of them after the first day. */
  predicate ReadUpTo(timeSlots: seq<TimeSlot>, day: nat, j: nat)
  {
    forall i :: 0 <= i < |timeSlots| && (day > 0 || i < j) ==> Readable(timeSlots[i])
  }

  /** The slots a bulk-week request has created when it reaches entry `j` of day `day`: day by
      day, and within a day in the order of `timeSlots`; the k-th created slot takes `ids[k]` and
      is created at `nows[k]`, the clock reading of its own insert. */
  function Planned(start: Time, timeSlots: seq<TimeSlot>, ids: seq<Id>, nows: seq<Time>, day: nat, j: nat): (r: seq<AvailableSlot>)
    requires |ids| == 7 * |timeSlots| && |nows| == |ids|
    requires j <= |timeSlots| && (day < 7 || (day == 7 && j == 0))
    requires ReadUpTo(timeSlots, day, j)
    ensures |r| == day * |timeSlots| + j
    decreases day, j
  {
    if j > 0 then
      var prev := Planned(start, timeSlots, ids, nows, day, j - 1);
      MulBelow(day, j - 1, |timeSlots|, 7);
      prev + [WeekSlot(start, timeSlots[j - 1], day, ids[|prev|], nows[|prev|])]
    else if day > 0 then
      MulStep(day - 1, |timeSlots|);
      Planned(start, timeSlots, ids, nows, day - 1, |timeSlots|)
    else
      []
  }

  lemma PlannedNext(start: Time, timeSlots: seq<TimeSlot>, ids: seq<Id>, nows: seq<Time>, day: nat, j: nat)
    requires |ids| == 7 * |timeSlots| && |nows| == |ids|
    requires j < |timeSlots| && day < 7
    requires ReadUpTo(timeSlots, day, j + 1)
    ensures |Planned(start, timeSlots, ids, nows, day, j)| < |ids|
    ensures var prev := Planned(start, timeSlots, ids, nows, day, j);
      Planned(start, timeSlots, ids, nows, day, j + 1) == prev + [WeekSlot(start, timeSlots[j], day, ids[|prev|], nows[|prev|])]
  {
    MulBelow(day, j, |timeSlots|, 7);
  }

  lemma PlannedNextDay(start: Time, timeSlots: seq<TimeSlot>, ids: seq<Id>, nows: seq<Time>, day: nat)
    requires |ids| == 7 * |timeSlots| && |nows| == |ids| && day < 7
    requires AllReadable(timeSlots)
    ensures Planned(start, timeSlots, ids, nows, day + 1, 0) == Planned(start, timeSlots, ids, nows, day, |timeSlots|)
  {
  }

  lemma MulBelow(day: nat, j: nat, n: nat, days: nat)
    requires day < days && j < n
    ensures day * n + j < days * n
  {
    var m := days - day - 1;
    assert days * n == day * n + n + m * n;
    assert m * n >= 0;
  }

  lemma MulStep(day: nat, n: nat)
    ensures (day + 1) * n == day * n + n
  {
  }

  /** Position `d * |timeSlots| + k` of the plan holds entry `k` on day `d`. */
  lemma {:induction false} PlannedAt(start: Time, timeSlots: seq<TimeSlot>, ids: seq<Id>, nows: seq<Time>,
                                     day: nat, j: nat, d: nat, k: nat)
    requires |ids| == 7 * |timeSlots| && |nows| == |ids|
    requires j <= |timeSlots| && (day < 7 || (day == 7 && j == 0))
    requires ReadUpTo(timeSlots, day, j)
    requires (d < day && k < |timeSlots|) || (d == day && k < j)
    ensures d * |timeSlots| + k < |Planned(start, timeSlots, ids, nows, day, j)|
    ensures Planned(start, timeSlots, ids, nows, day, j)[d * |timeSlots| + k] ==
      WeekSlot(start, timeSlots[k], d, ids[d * |timeSlots| + k], nows[d * |timeSlots| + k])
    decreases day, j
  {
    var n := |timeSlots|;
    if j > 0 {
      if d == day && k == j - 1 {
      } else {
        PlannedAt(start, timeSlots, ids, nows, day, j - 1, d, k);
      }
    } else {
      PlannedAt(start, timeSlots, ids, nows, day - 1, n, d, k);
    }
  }

  /** Every slot of a completed bulk week: its id, its service, available, on the `d`-th local
      day from `start` at the entry's hour and minute, on a whole minute, created at its own
      instant. */
  lemma BulkWeekSlot(start: Time, timeSlots: seq<TimeSlot>, ids: seq<Id>, nows: seq<Time>, d: nat, k: nat)
    requires AllReadable(timeSlots)
    requires |ids| == 7 * |timeSlots| && |nows| == |ids|
    requires d < 7 && k < |timeSlots| && Readable(timeSlots[k])
    requires 0 <= timeSlots[k].hours.value < 24 && 0 <= timeSlots[k].minutes.value < 60
    ensures d * |timeSlots| + k < 7 * |timeSlots|
    ensures var s := Planned(start, timeSlots, ids, nows, 7, 0)[d * |timeSlots| + k];
      && s.id == ids[d * |timeSlots| + k] && s.servico == timeSlots[k].service && s.disponivel
      && DayNumber(s.dataHora) == DayNumber(start) + d
      && HourOf(s.dataHora) == timeSlots[k].hours.value
      && MinuteOf(s.dataHora) == timeSlots[k].minutes.value
      && (s.dataHora + LocalOffset) % MinuteMs == 0
      && s.criadoEm == nows[d * |timeSlots| + k]
  {
    PlannedAt(start, timeSlots, ids, nows, 7, 0, d, k);
    var day := start + d * DayMs;
    ShiftDays(start, d);
    TimeOfDayParts(day, timeSlots[k].hours.value, timeSlots[k].minutes.value);
    SameDayWindow(AtTimeOfDay(day, timeSlots[k].hours.value, timeSlots[k].minutes.value), day);
  }

  /** The slot table `slots` is `before` with the slots of `created` added under their ids. */
  ghost predicate Extends(slots: SlotTable, before: SlotTable, created: seq<AvailableSlot>)
  {
    && slots.Keys == before.Keys + (set s | s in created :: s.id)
    && (forall s :: s in created ==> s.id in slots && slots[s.id] == s)
    && (forall k :: k in before ==> slots[k] == before[k])
  }

  /** `slots` extends `before` with `created`, and the ids not yet used are still free. */
  ghost predicate Growing(slots: SlotTable, before: SlotTable, created: seq<AvailableSlot>, ids: seq<Id>)
  {
    && Extends(slots, before, created)
    && (forall i :: |created| <= i < |ids| ==> ids[i] !in slots)
  }

  lemma ExtendsStep(slots: SlotTable, before: SlotTable, created: seq<AvailableSlot>, s: AvailableSlot)
    requires Extends(slots, before, created) && s.id !in slots
    ensures Extends(slots[s.id := s], before, created + [s])
  {
    var slots' := slots[s.id := s];
    assert (set x | x in created + [s] :: x.id) == (set x | x in created :: x.id) + {s.id};
    forall x | x in created + [s] ensures x.id in slots' && slots'[x.id] == x {
      if x != s {
        assert x in created;
      }
    }
  }

  /** An entry that cannot be read, after readable ones, is the first such entry, and it can
      only be met on the first day. */
  lemma StopsAt(timeSlots: seq<TimeSlot>, day: nat, j: nat)
    requires j < |timeSlots| && !Readable(timeSlots[j])
    requires forall i :: 0 <= i < j ==> Readable(timeSlots[i])
    requires day > 0 ==> AllReadable(timeSlots)
    ensures day == 0 && !AllReadable(timeSlots)
    ensures FirstIndex(timeSlots, Unreadable) == j
  {
    assert Unreadable(timeSlots[j]);
  }

  /** No id is handed out twice. */
  predicate DistinctIds(ids: seq<Id>)
  {
    forall i, i' :: 0 <= i < i' < |ids| ==> ids[i] != ids[i']
  }

  /** Where the inner loop stands before entry `j` of day `day`: the entries so far were
      readable, `created` is the plan up to there, and the table holds exactly those slots
      beyond `before`. */
  ghost predicate DayState(slots: SlotTable, before: SlotTable, start: Time, timeSlots: seq<TimeSlot>,
                           ids: seq<Id>, nows: seq<Time>, day: nat, j: nat, created: seq<AvailableSlot>)
  {
    && day < 7 && |ids| == 7 * |timeSlots| && |nows| == |ids| && j <= |timeSlots|
    && ReadUpTo(timeSlots, day, j)
    && created == Planned(start, timeSlots, ids, nows, day, j)
    && Growing(slots, before, created, ids)
  }

  /** One pass of the inner loop for a readable entry `j`: the slot of entry `j` on day `day`
      is stored under the next id. */
  method CreateEntrySlot(store: DatabaseStorage, start: Time, timeSlots: seq<TimeSlot>, ids: seq<Id>,
                         nows: seq<Time>, day: nat, j: nat, ghost before: SlotTable, soFar: seq<AvailableSlot>)
    returns (created: seq<AvailableSlot>)
    requires store.Valid() && DistinctIds(ids)
    requires DayState(store.slots, before, start, timeSlots, ids, nows, day, j, soFar)
    requires j < |timeSlots| && Readable(timeSlots[j])
    modifies store
    ensures store.Valid() && store.appointments == old(store.appointments)
    ensures DayState(store.slots, before, start, timeSlots, ids, nows, day, j + 1, created)
  {
    var entry := timeSlots[j];
    var slotDate := AtTimeOfDay(start + day * DayMs, entry.hours.value, entry.minutes.value);
    PlannedNext(start, timeSlots, ids, nows, day, j);
    ghost var planned := WeekSlot(start, entry, day, ids[|soFar|], nows[|soFar|]);
    ExtendsStep(store.slots, before, soFar, planned);
    var s := store.CreateAvailableSlot(ids[|soFar|], nows[|soFar|], slotDate, entry.service, true);
    created := soFar + [s];
  }

  /** The inner loop of the bulk-week handler for day `day`: one slot per entry, in the order
      of `timeSlots`. `ok` is false when an entry's time cannot be read; the slots created
      before it remain. */
  method CreateDaySlots(store: DatabaseStorage, start: Time, timeSlots: seq<TimeSlot>, ids: seq<Id>,
                        nows: seq<Time>, day: nat, ghost before: SlotTable, soFar: seq<AvailableSlot>)
    returns (ok: bool, created: seq<AvailableSlot>)
    requires store.Valid() && DistinctIds(ids)
    requires day > 0 ==> AllReadable(timeSlots)
    requires DayState(store.slots, before, start, timeSlots, ids, nows, day, 0, soFar)
    modifies store
    ensures store.Valid() && store.appointments == old(store.appointments)
    ensures Growing(store.slots, before, created, ids)
    ensures ok <==> AllReadable(timeSlots)
    ensures ok ==> created == Planned(start, timeSlots, ids, nows, day + 1, 0)
    ensures !ok ==>
      && day == 0
      && created == Planned(start, timeSlots, ids, nows, 0, FirstIndex(timeSlots, Unreadable))
  {
    var n := |timeSlots|;
    created := soFar;
    var j := 0;
    while j < n
      invariant store.Valid() && store.appointments == old(store.appointments)
      invariant DayState(store.slots, before, start, timeSlots, ids, nows, day, j, created)
    {
      if !Readable(timeSlots[j]) {
        StopsAt(timeSlots, day, j);
        return false, created;
      }
      created := CreateEntrySlot(store, start, timeSlots, ids, nows, day, j, before, created);
      j := j + 1;
    }
    PlannedNextDay(start, timeSlots, ids, nows, day);
    ok := true;
  }

  /** `POST /api/slots/bulk-week`: for each of seven days from `startDate` and each entry of
      `timeSlots`, one available slot at the entry's time of day. The first entry whose time
      cannot be read stops the request with 500, and the slots created before it remain; when
      `startDate` is not a date, that is the very first entry. Otherwise 201 with the
      `7 * |timeSlots|` slots. The k-th insert takes the fresh id `ids[k]` and reads the clock
      as `nows[k]`. */
  method PostBulkWeek(store: DatabaseStorage, startDate: string, parse: string -> Option<Time>,
                      timeSlots: seq<TimeSlot>, ids: seq<Id>, nows: seq<Time>)
    returns (status: int, created: seq<AvailableSlot>)
    requires store.Valid()
    requires |ids| == 7 * |timeSlots| && |nows| == |ids|
    requires DistinctIds(ids)
    requires forall i :: 0 <= i < |ids| ==> ids[i] !in store.slots
    modifies store
    ensures store.Valid() && store.appointments == old(store.appointments)
    ensures Extends(store.slots, old(store.slots), created)
    ensures |timeSlots| == 0 ==> status == HttpCreated && created == []
    ensures |timeSlots| > 0 && parse(startDate).None? ==> status == HttpServerError && created == []
    ensures parse(startDate).Some? && AllReadable(timeSlots) ==>
      status == HttpCreated && created == Planned(parse(startDate).value, timeSlots, ids, nows, 7, 0)
    ensures parse(startDate).Some? && !AllReadable(timeSlots) ==>
      status == HttpServerError &&
      created == Planned(parse(startDate).value, timeSlots, ids, nows, 0, FirstIndex(timeSlots, Unreadable))
  {
    var start := parse(startDate);
    created := [];
    if start.None? {
      // Every slot time is an Invalid Date: the first entry fails.
      status := if |timeSlots| == 0 then HttpCreated else HttpServerError;
      return;
    }
    var day := 0;
    while day < 7
      invariant 0 <= day <= 7
      invariant day > 0 ==> AllReadable(timeSlots)
      invariant created == Planned(start.value, timeSlots, ids, nows, day, 0)
      invariant store.Valid() && store.appointments == old(store.appointments)
      invariant Growing(store.slots, old(store.slots), created, ids)
    {
      var ok;
      ok, created := CreateDaySlots(store, start.value, timeSlots, ids, nows, day, old(store.slots), created);
      if !ok {
        return HttpServerError, created;
      }
      day := day + 1;
    }
    status := HttpCreated;
  }

  /** `GET /api/stats`: the figures over the current tables at instant `now`. Today's count is
      the number of appointments on the local day of `now`; the week's count uses the window the
      handler computes (see `StatsWeekWindow`). */
  method GetStats(store: DatabaseStorage, now: Time) returns (status: int, stats: StatsBody)
    requires store.Valid()
    ensures status == HttpOk
    ensures var joined := Joined(store.slots, store.appointments);
      && stats.todayAppointments == |set a | a in joined && DayNumber(a.dataHora) == DayNumber(now)|
      && stats.weekAppointments == |set a | a in joined && StatsWeekWindow(now).Contains(a.dataHora)|
      && stats.totalCarregamentos == |set a | a in joined && a.servico == "Carregamento"|
      && stats.totalDescarregamentos == |set a | a in joined && a.servico == "Descarregamento"|
      && stats.totalCarregamentos + stats.totalDescarregamentos <= |joined|
    ensures stats.availableSlots == |set s | s in store.slots.Values && s.disponivel|
    ensures stats.occupiedSlots == |set s | s in store.slots.Values && !s.disponivel|
    ensures stats.availableSlots + stats.occupiedSlots == |store.slots.Values|
  {
    var appointments := store.GetAppointments();
    var slotList := store.GetAvailableSlots();
    stats := ComputeStats(appointments, slotList, now);
    var joined := Joined(store.slots, store.appointments);
    TodayCount(appointments, slotList, joined, now);
    WeekCount(appointments, slotList, joined, now);
    ServiceCount(appointments, joined, "Carregamento");
    ServiceCount(appointments, joined, "Descarregamento");
    ServiceTotals(appointments, slotList, now);
    ListsLength(appointments, joined);
    SlotCounts(appointments, slotList, store.slots.Values, now);
    status := HttpOk;
  }
}
