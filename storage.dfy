/** `DatabaseStorage` of `server/storage.ts`: the two tables as map fields and one method per
    storage function. Each SQL statement is one step on the maps; generated ids, confirmation
    codes and the clock are parameters. */
module Storage {
  import opened Options
  import opened Clock
  import opened Lists
  import opened Schema
  import opened Tables

  /** `InsertAppointment` as `createAppointment` receives it: the time is the instant the
      request's string denotes; a status may be absent. */
  datatype NewAppointment = NewAppointment(
    dataHora: Time,
    servico: string,
    nomeCliente: string,
    emailCliente: string,
    telefoneCliente: Option<string>,
    empresaCliente: Option<string>,
    observacoes: Option<string>,
    status: Option<string>)

  /** `value || null`: an absent or empty string is stored as `NULL`. */
  function OrNull(value: Option<string>): (r: Option<string>)
    ensures r.None? <==> value.None? || value.value == ""
    ensures r.Some? ==> r == value
  {
    if value.Some? && value.value != "" then value else None
  }

  /** `status || 'confirmado'`: an absent or empty status becomes "confirmado". */
  function StatusOrDefault(status: Option<string>): (r: string)
    ensures status.Some? && status.value != "" ==> r == status.value
    ensures status.None? || status.value == "" ==> r == StatusName(Confirmado)
  {
    if status.Some? && status.value != "" then status.value else "confirmado"
  }

  /** The row `createAppointment` inserts for slot `slotId`. */
  function InsertedRow(id: Id, slotId: Id, a: NewAppointment, code: string, now: Time): AppointmentRow
  {
    AppointmentRow(id, slotId, a.nomeCliente, a.emailCliente, OrNull(a.telefoneCliente),
                   OrNull(a.empresaCliente), OrNull(a.observacoes), code,
                   StatusOrDefault(a.status), now)
  }

  /** The object `createAppointment` returns: time and service from the slot, the client
      fields as they were passed in. */
  function Created(id: Id, slot: AvailableSlot, a: NewAppointment, code: string, now: Time): Appointment
  {
    Appointment(id, slot.dataHora, slot.servico, a.nomeCliente, a.emailCliente, a.telefoneCliente,
                a.empresaCliente, a.observacoes, StatusOrDefault(a.status), code, now)
  }

  /** Ordering keys of `ORDER BY data_hora ASC` and `ORDER BY s.data_hora ASC`. */
  function SlotTime(s: AvailableSlot): int
  {
    s.dataHora
  }

  function AppointmentTime(a: Appointment): int
  {
    a.dataHora
  }

  /** The slots whose time lies in `[lo, hi]`. */
  function SlotsBetween(slots: SlotTable, lo: Time, hi: Time): set<AvailableSlot>
  {
    set s | s in slots.Values && lo <= s.dataHora <= hi
  }

  /** The rows of a table whose keys are in `ids`. */
  function SlotsOver(slots: SlotTable, ids: set<Id>): set<AvailableSlot>
  {
    set k | k in ids && k in slots :: slots[k]
  }

  class DatabaseStorage {
    var slots: SlotTable
    var appointments: AppointmentTable

    ghost predicate Valid()
      reads this
    {
      KeyedById(slots, appointments)
    }

    constructor ()
      ensures Valid() && slots == map[] && appointments == map[]
    {
      slots := map[];
      appointments := map[];
    }

    /** `getAvailableSlots`: every slot once, ascending by time. The loop stands for the
        database's `ORDER BY`; slots with equal times come in no particular order. */
    method GetAvailableSlots() returns (r: seq<AvailableSlot>)
      requires Valid()
      ensures SortedBy(r, SlotTime)
      ensures IsListing(r, slots.Values)
    {
      r := [];
      var todo := slots.Keys;
      ghost var done: set<Id> := {};
      assert SlotsOver(slots, done) == {};
      while todo != {}
        invariant todo + done == slots.Keys && todo !! done
        invariant SlotsListed(r, slots, done)
        decreases todo
      {
        var k :| k in todo;
        SlotStep(slots, appointments, done, k, r);
        r := InsertBy(r, slots[k], SlotTime);
        todo, done := todo - {k}, done + {k};
      }
      SlotsOverAll(r, slots, done);
    }

    /** `getAvailableSlotsByDate`: the slots from 00:00:00.000 to 23:59:59.999 of the local
        day of `date`, both ends included, ascending by time. */
    method GetAvailableSlotsByDate(date: Time) returns (r: seq<AvailableSlot>)
      requires Valid()
      ensures SortedBy(r, SlotTime)
      ensures IsListing(r, SlotsBetween(slots, DayStart(date), EndOfDay(date)))
    {
      var all := GetAvailableSlots();
      var lo, hi := DayStart(date), EndOfDay(date);
      r := Filter(all, (s: AvailableSlot) => lo <= s.dataHora <= hi);
      FilterSorted(all, (s: AvailableSlot) => lo <= s.dataHora <= hi, SlotTime);
      FilterLists(all, slots.Values, (s: AvailableSlot) => lo <= s.dataHora <= hi);
    }

    /** `createAvailableSlot`: inserts a slot under a fresh id with creation time `now`. */
    method CreateAvailableSlot(id: Id, now: Time, dataHora: Time, servico: string, disponivel: bool)
      returns (s: AvailableSlot)
      requires Valid() && id !in slots
      modifies this
      ensures Valid()
      ensures s == AvailableSlot(id, dataHora, servico, disponivel, now)
      ensures slots == old(slots)[id := s] && appointments == old(appointments)
    {
      s := AvailableSlot(id, dataHora, servico, disponivel, now);
      slots := slots[id := s];
    }

    /** `updateAvailableSlot`: sets the supplied fields of one slot. It returns `None` and
        changes nothing when no field is supplied or no slot has that id. */
    method UpdateAvailableSlot(id: Id, updates: SlotUpdate) returns (r: Option<AvailableSlot>)
      requires Valid()
      modifies this
      ensures Valid() && appointments == old(appointments)
      ensures updates == SlotUpdate(None, None, None) || id !in old(slots) ==>
        r.None? && slots == old(slots)
      ensures updates != SlotUpdate(None, None, None) && id in old(slots) ==>
        && r == Some(ApplySlotUpdate(old(slots)[id], updates))
        && slots == old(slots)[id := r.value]
    {
      // The columns of the SET clause, in the order the source appends them.
      var setClauses: seq<string> := [];
      if updates.dataHora.Some? {
        setClauses := setClauses + ["data_hora"];
      }
      if updates.servico.Some? {
        setClauses := setClauses + ["servico"];
      }
      if updates.disponivel.Some? {
        setClauses := setClauses + ["disponivel"];
      }
      if |setClauses| == 0 {
        return None;
      }
      if id !in slots {
        return None;
      }
      var row := ApplySlotUpdate(slots[id], updates);
      slots := slots[id := row];
      r := Some(row);
    }

    /** `deleteAvailableSlot`: removes the slot and reports whether a row was removed.
        Appointment rows that refer to it stay as they are. */
    method DeleteAvailableSlot(id: Id) returns (deleted: bool)
      requires Valid()
      modifies this
      ensures Valid()
      ensures deleted == (id in old(slots))
      ensures slots == old(slots) - {id} && appointments == old(appointments)
    {
      deleted := id in slots;
      slots := slots - {id};
    }

    /** `getAppointments`: every appointment whose slot exists, joined with that slot,
        ascending by the slot's time. */
    method GetAppointments() returns (r: seq<Appointment>)
      requires Valid()
      ensures SortedBy(r, AppointmentTime)
      ensures IsListing(r, Joined(slots, appointments))
    {
      r := [];
      var todo := appointments.Keys;
      ghost var done: set<Id> := {};
      AppointmentsListedEmpty(slots, appointments);
      while todo != {}
        invariant todo + done == appointments.Keys && todo !! done
        invariant AppointmentsListed(r, slots, appointments, done)
        decreases todo
      {
        var k :| k in todo;
        var row := appointments[k];
        JoinStep(slots, appointments, done, k, r);
        if row.slotId in slots {
          r := InsertBy(r, Join(row, slots[row.slotId]), AppointmentTime);
        }
        todo, done := todo - {k}, done + {k};
      }
      AppointmentsListedAll(r, slots, appointments, done);
    }

    /** `getAppointmentsByEmail`: the listed appointments whose email is exactly `email`
        (case-sensitive), ascending by time. */
    method GetAppointmentsByEmail(email: string) returns (r: seq<Appointment>)
      requires Valid()
      ensures SortedBy(r, AppointmentTime)
      ensures IsListing(r, set a | a in Joined(slots, appointments) && a.emailCliente == email)
    {
      var all := GetAppointments();
      r := Filter(all, (a: Appointment) => a.emailCliente == email);
      FilterSorted(all, (a: Appointment) => a.emailCliente == email, AppointmentTime);
      FilterLists(all, Joined(slots, appointments), (a: Appointment) => a.emailCliente == email);
    }

    /** `getAppointmentsByDateRange`: the listed appointments whose time lies in
        `[startDate, endDate]`, both ends included, ascending by time. */
    method GetAppointmentsByDateRange(startDate: Time, endDate: Time) returns (r: seq<Appointment>)
      requires Valid()
      ensures SortedBy(r, AppointmentTime)
      ensures IsListing(r, set a | a in Joined(slots, appointments) && startDate <= a.dataHora <= endDate)
    {
      var all := GetAppointments();
      r := Filter(all, (a: Appointment) => startDate <= a.dataHora <= endDate);
      FilterSorted(all, (a: Appointment) => startDate <= a.dataHora <= endDate, AppointmentTime);
      FilterLists(all, Joined(slots, appointments), (a: Appointment) => startDate <= a.dataHora <= endDate);
    }

    /** `createAppointment`: books some available slot with exactly the requested time and
        service. With none, it fails ("Horário não disponível") and changes nothing; otherwise
        it inserts one appointment for that slot and marks the slot unavailable, and nothing
        else changes. Which of several such slots it takes is not determined. */
    method CreateAppointment(appointment: NewAppointment, id: Id, code: string, now: Time)
      returns (r: Result<Appointment>)
      requires Valid() && id !in appointments
      modifies this
      ensures Valid()
      ensures Bookable(old(slots), appointment.dataHora, appointment.servico) == {} ==>
        r.Failure? && slots == old(slots) && appointments == old(appointments)
      ensures Bookable(old(slots), appointment.dataHora, appointment.servico) != {} ==>
        && r.Ok? && id in appointments
        && var sid := appointments[id].slotId;
        && sid in Bookable(old(slots), appointment.dataHora, appointment.servico)
        && appointments == old(appointments)[id := InsertedRow(id, sid, appointment, code, now)]
        && slots == SetAvailability(old(slots), sid, false)
        && r.value == Created(id, old(slots)[sid], appointment, code, now)
      ensures old(Mirror(slots, appointments)) ==> Mirror(slots, appointments)
    {
      var found := Bookable(slots, appointment.dataHora, appointment.servico);
      if found == {} {
        return Failure("Horário não disponível");
      }
      var slotId :| slotId in found;
      var slot := slots[slotId];
      var row := InsertedRow(id, slotId, appointment, code, now);
      if Mirror(slots, appointments) {
        BookingKeepsMirror(slots, appointments, row);
      }
      appointments := appointments[id := row];
      slots := SetAvailability(slots, slotId, false);
      r := Ok(Created(id, slot, appointment, code, now));
    }

    /** `updateAppointment`: sets the supplied status and notes of one appointment and returns
        it as the join lists it. `Ok(None)` with no change when nothing is supplied or the id is
        unknown; a failure, after the update, when the appointment's slot no longer exists (the
        follow-up join finds no row). */
    method UpdateAppointment(id: Id, updates: AppointmentUpdate) returns (r: Result<Option<Appointment>>)
      requires Valid()
      modifies this
      ensures Valid() && slots == old(slots)
      ensures updates == AppointmentUpdate(None, None) || id !in old(appointments) ==>
        r == Ok(None) && appointments == old(appointments)
      ensures updates != AppointmentUpdate(None, None) && id in old(appointments) ==>
        && appointments == old(appointments)[id := ApplyAppointmentUpdate(old(appointments)[id], updates)]
        && (appointments[id].slotId in slots ==>
              r == Ok(Some(Join(appointments[id], slots[appointments[id].slotId]))))
        && (appointments[id].slotId !in slots ==> r.Failure?)
      ensures old(Mirror(slots, appointments)) ==> Mirror(slots, appointments)
    {
      var setClauses: seq<string> := [];
      if updates.status.Some? {
        setClauses := setClauses + ["status"];
      }
      if updates.observacoes.Some? {
        setClauses := setClauses + ["observacoes"];
      }
      if |setClauses| == 0 {
        return Ok(None);
      }
      if id !in appointments {
        return Ok(None);
      }
      var row := ApplyAppointmentUpdate(appointments[id], updates);
      appointments := appointments[id := row];
      if row.slotId !in slots {
        return Failure("appointment row without a slot");
      }
      r := Ok(Some(Join(row, slots[row.slotId])));
    }

    /** `deleteAppointment`: `false` and no change for an unknown id; otherwise removes exactly
        that appointment and marks the slot it refers to available. */
    method DeleteAppointment(id: Id) returns (deleted: bool)
      requires Valid()
      modifies this
      ensures Valid()
      ensures deleted == (id in old(appointments))
      ensures !deleted ==> slots == old(slots) && appointments == old(appointments)
      ensures deleted ==>
        && appointments == old(appointments) - {id}
        && slots == SetAvailability(old(slots), old(appointments)[id].slotId, true)
      ensures old(Mirror(slots, appointments)) ==> Mirror(slots, appointments)
    {
      if id !in appointments {
        return false;
      }
      var slotId := appointments[id].slotId;
      if Mirror(slots, appointments) {
        CancellingKeepsMirror(slots, appointments, id);
      }
      appointments := appointments - {id};
      slots := SetAvailability(slots, slotId, true);
      deleted := true;
    }

    /** `getAppointmentByCode`: some listed appointment with exactly this confirmation code, or
        `None` when there is none. Codes are not unique; which match is returned is not
        determined. */
    method GetAppointmentByCode(code: string) returns (r: Option<Appointment>)
      requires Valid()
      ensures r.None? <==> forall a :: a in Joined(slots, appointments) ==> a.codigoConfirmacao != code
      ensures r.Some? ==> r.value in Joined(slots, appointments) && r.value.codigoConfirmacao == code
    {
      var matches := set a | a in Joined(slots, appointments) && a.codigoConfirmacao == code;
      if matches == {} {
        assert forall a :: a in Joined(slots, appointments) ==> a in matches || a.codigoConfirmacao != code;
        return None;
      }
      var a :| a in matches;
      r := Some(a);
    }
  }

  lemma SlotsOverAdd(slots: SlotTable, done: set<Id>, k: Id)
    requires forall j :: j in slots ==> slots[j].id == j
    requires k in slots && k !in done
    ensures slots[k] !in SlotsOver(slots, done)
    ensures SlotsOver(slots, done + {k}) == SlotsOver(slots, done) + {slots[k]}
  {
  }

  /** `r` lists the slots under the ids in `done`, ascending by time. */
  predicate SlotsListed(r: seq<AvailableSlot>, slots: SlotTable, done: set<Id>)
  {
    SortedBy(r, SlotTime) && IsListing(r, SlotsOver(slots, done))
  }

  /** `r` lists the joined appointments under the ids in `done`, ascending by time. */
  predicate AppointmentsListed(r: seq<Appointment>, slots: SlotTable, appointments: AppointmentTable, done: set<Id>)
  {
    SortedBy(r, AppointmentTime) && IsListing(r, JoinedOver(slots, appointments, done))
  }

  lemma AppointmentsListedEmpty(slots: SlotTable, appointments: AppointmentTable)
    ensures AppointmentsListed([], slots, appointments, {})
  {
    assert JoinedOver(slots, appointments, {}) == {};
  }

  lemma AppointmentsListedAll(r: seq<Appointment>, slots: SlotTable, appointments: AppointmentTable, done: set<Id>)
    requires done == appointments.Keys && AppointmentsListed(r, slots, appointments, done)
    ensures SortedBy(r, AppointmentTime) && IsListing(r, Joined(slots, appointments))
  {
  }

  lemma SlotStep(slots: SlotTable, appointments: AppointmentTable, done: set<Id>, k: Id, r: seq<AvailableSlot>)
    requires KeyedById(slots, appointments)
    requires k in slots && k !in done
    requires SlotsListed(r, slots, done)
    ensures SlotsListed(InsertBy(r, slots[k], SlotTime), slots, done + {k})
  {
    SlotsOverAdd(slots, done, k);
    ListsAdd(r, SlotsOver(slots, done), slots[k]);
  }

  lemma SlotsOverAll(r: seq<AvailableSlot>, slots: SlotTable, done: set<Id>)
    requires done == slots.Keys && SlotsListed(r, slots, done)
    ensures SortedBy(r, SlotTime) && IsListing(r, slots.Values)
  {
    forall s | s in slots.Values ensures s in SlotsOver(slots, done) {
      var k :| k in slots && slots[k] == s;
    }
    assert SlotsOver(slots, done) == slots.Values;
  }

  lemma JoinStep(slots: SlotTable, appointments: AppointmentTable, done: set<Id>, k: Id, r: seq<Appointment>)
    requires KeyedById(slots, appointments)
    requires k in appointments && k !in done
    requires AppointmentsListed(r, slots, appointments, done)
    ensures var row := appointments[k];
      row.slotId in slots ==>
        AppointmentsListed(InsertBy(r, Join(row, slots[row.slotId]), AppointmentTime), slots, appointments, done + {k})
    ensures appointments[k].slotId !in slots ==> AppointmentsListed(r, slots, appointments, done + {k})
  {
    JoinedOverAdd(slots, appointments, done, k);
    var row := appointments[k];
    if row.slotId in slots {
      ListsAdd(r, JoinedOver(slots, appointments, done), Join(row, slots[row.slotId]));
    }
  }
}
